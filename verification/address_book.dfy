/** The saved-address handlers: add, edit and list, over the user's address book. */
module AddressBook {
  import opened Base
  import opened AddressModel
  import Lists

  /** Every saved address of every user, in insertion order. */
  type Book = seq<Address>

  /** The store gives every address its own id. */
  ghost predicate UniqueIds(book: Book) {
    forall i, j :: 0 <= i < j < |book| ==> book[i].id != book[j].id
  }

  /** `id` is not yet taken, as for an id the store has just generated. */
  predicate Fresh(book: Book, id: AddressId) {
    forall k :: 0 <= k < |book| ==> book[k].id != id
  }

  predicate DefaultOf(a: Address, user: UserId) {
    a.userId == user && a.isDefault
  }

  /** How many of the user's addresses carry the default flag. */
  function DefaultCount(book: Book, user: UserId): nat {
    if |book| == 0 then 0
    else DefaultCount(book[..|book| - 1], user) + (if DefaultOf(book[|book| - 1], user) then 1 else 0)
  }

  /** The invariant the handlers keep: no user has two default addresses. */
  ghost predicate AtMostOneDefault(book: Book) {
    forall user :: DefaultCount(book, user) <= 1
  }

  /** The address with its default flag cleared when `updateMany` would match it:
      the user's addresses, except the one with id `keep` when there is one. */
  function Unset(a: Address, user: UserId, keep: Option<AddressId>): Address {
    if a.userId == user && (keep.None? || a.id != keep.value) then a.(isDefault := false) else a
  }

  /** `Address.updateMany({userId, ...}, {isDefault: false})`: only the flag can change, and it
      is cleared exactly on the user's addresses other than `keep`. */
  function ClearDefaults(book: Book, user: UserId, keep: Option<AddressId>): (r: Book)
    ensures |r| == |book|
    ensures forall k :: 0 <= k < |book| ==> r[k] == Unset(book[k], user, keep)
    ensures forall k :: 0 <= k < |book| ==> r[k].(isDefault := book[k].isDefault) == book[k]
    ensures forall k :: 0 <= k < |book| ==>
      (r[k].isDefault <==> book[k].isDefault && (book[k].userId != user || (keep.Some? && book[k].id == keep.value)))
  {
    seq(|book|, k requires 0 <= k < |book| => Unset(book[k], user, keep))
  }

  /** A book where no address is the user's default counts no default. */
  lemma {:induction false} CountNone(book: Book, user: UserId)
    requires forall k :: 0 <= k < |book| ==> !DefaultOf(book[k], user)
    ensures DefaultCount(book, user) == 0
  {
    if |book| > 0 {
      CountNone(book[..|book| - 1], user);
    }
  }

  /** A book where at most position `at` can be the user's default counts that one position. */
  lemma {:induction false} CountSingle(book: Book, user: UserId, at: nat)
    requires at < |book|
    requires forall k :: 0 <= k < |book| && k != at ==> !DefaultOf(book[k], user)
    ensures DefaultCount(book, user) == if DefaultOf(book[at], user) then 1 else 0
  {
    var init := book[..|book| - 1];
    if at == |book| - 1 {
      CountNone(init, user);
    } else {
      CountSingle(init, user, at);
    }
  }

  /** Clearing flags position-wise never raises anyone's default count. */
  lemma {:induction false} CountMonotone(before: Book, after: Book, user: UserId)
    requires |before| == |after|
    requires forall k :: 0 <= k < |after| ==> DefaultOf(after[k], user) ==> DefaultOf(before[k], user)
    ensures DefaultCount(after, user) <= DefaultCount(before, user)
  {
    if |after| > 0 {
      CountMonotone(before[..|before| - 1], after[..|after| - 1], user);
    }
  }

  /** Appending one address adds its own flag to the count. */
  lemma CountAppend(book: Book, a: Address, user: UserId)
    ensures DefaultCount(book + [a], user) == DefaultCount(book, user) + (if DefaultOf(a, user) then 1 else 0)
  {
    assert (book + [a])[..|book|] == book;
  }

  /** The request body of `POST /addresses`. The schema has no email, so it is not stored. */
  datatype AddRequest = AddRequest(
    name: string, phone: string, email: string, address: string, city: string, pincode: string,
    labelText: string, isDefault: bool)

  /** A saved address and the book it was saved into. */
  datatype Saved = Saved(book: Book, address: Address)

  /** The fields `POST /addresses` checks by hand; unlike the schema it also demands a phone. */
  predicate AddComplete(req: AddRequest) {
    Truthy(req.name) && Truthy(req.phone) && Truthy(req.address) && Truthy(req.city) && Truthy(req.pincode)
  }

  /** `POST /addresses`: check the fields, un-default the user's addresses when the new one is
      the default, then save it with the label falling back to "city, pincode". */
  function Add(book: Book, user: UserId, req: AddRequest, id: AddressId, now: Time): (r: Result<Saved>)
    requires Fresh(book, id)
    ensures r.Err? <==> !AddComplete(req)
    ensures r.Err? ==> r.error == MissingFields
    ensures r.Ok? ==> |r.value.book| == |book| + 1 && r.value.book[|book|] == r.value.address
    ensures r.Ok? ==> r.value.address.id == id && r.value.address.userId == user && r.value.address.createdAt == now
    ensures r.Ok? ==> r.value.address.isDefault == req.isDefault
    ensures r.Ok? ==>
      r.value.address.labelText == if Truthy(req.labelText) then req.labelText else req.city + ", " + req.pincode
    ensures r.Ok? ==> r.value.address.name == req.name && r.value.address.phone == req.phone
    ensures r.Ok? ==> r.value.address.address == req.address && r.value.address.city == req.city
    ensures r.Ok? ==> r.value.address.pincode == req.pincode
    ensures r.Ok? ==> forall k :: 0 <= k < |book| ==>
      r.value.book[k] == if req.isDefault && book[k].userId == user then book[k].(isDefault := false) else book[k]
    ensures r.Ok? && req.isDefault ==> DefaultCount(r.value.book, user) == 1
  {
    if !AddComplete(req) then Err(MissingFields)
    else
      var fields := AddressFields(req.name, req.phone, req.address, req.city, req.pincode,
                                  Some(Or(req.labelText, req.city + ", " + req.pincode)), Some(req.isDefault));
      var a := NewAddress(id, user, fields, now).value;
      var before := if a.isDefault then ClearDefaults(book, user, None) else book;
      CountAppend(before, a, user);
      if a.isDefault then CountNone(before, user); Ok(Saved(before + [a], a))
      else Ok(Saved(before + [a], a))
  }

  /** Adding keeps ids unique and keeps every user at no more than one default. */
  lemma AddKeepsInvariants(book: Book, user: UserId, req: AddRequest, id: AddressId, now: Time)
    requires Fresh(book, id) && UniqueIds(book) && AtMostOneDefault(book)
    ensures Add(book, user, req, id, now).Ok? ==>
      UniqueIds(Add(book, user, req, id, now).value.book) && AtMostOneDefault(Add(book, user, req, id, now).value.book)
  {
    var r := Add(book, user, req, id, now);
    if r.Ok? {
      var a := r.value.address;
      var before := r.value.book[..|book|];
      assert r.value.book == before + [a];
      forall u
        ensures DefaultCount(r.value.book, u) <= 1
      {
        CountAppend(before, a, u);
        CountMonotone(book, before, u);
        if req.isDefault && u != user {
          assert !DefaultOf(a, u);
        }
      }
    }
  }

  /** The body of `PUT /addresses/:id`; None marks a field the body leaves out. */
  datatype AddressUpdate = AddressUpdate(
    userId: Option<UserId>, labelText: Option<string>,
    name: Option<string>, phone: Option<string>, address: Option<string>, city: Option<string>, pincode: Option<string>,
    isDefault: Option<bool>)

  /** The update sets a required field to "", which the update validators reject. */
  predicate BlanksRequired(upd: AddressUpdate) {
    upd.name == Some("") || upd.address == Some("") || upd.city == Some("") || upd.pincode == Some("")
  }

  function Pick<T>(o: Option<T>, current: T): T {
    if o.Some? then o.value else current
  }

  /** The label an edit stores: the given one, else "city, pincode" rebuilt when either changed,
      else the old label. */
  function EditedLabel(cur: Address, upd: AddressUpdate): string {
    Or(OrEmpty(upd.labelText),
       if Truthy(OrEmpty(upd.city)) || Truthy(OrEmpty(upd.pincode))
       then Or(OrEmpty(upd.city), cur.city) + ", " + Or(OrEmpty(upd.pincode), cur.pincode)
       else cur.labelText)
  }

  /** `{...updates, userId, label}` applied to the stored address. */
  function Patch(cur: Address, user: UserId, upd: AddressUpdate): Address {
    cur.(userId := user, labelText := EditedLabel(cur, upd),
         name := Pick(upd.name, cur.name), phone := Pick(upd.phone, cur.phone),
         address := Pick(upd.address, cur.address), city := Pick(upd.city, cur.city),
         pincode := Pick(upd.pincode, cur.pincode), isDefault := Pick(upd.isDefault, cur.isDefault))
  }

  /** The (id, owner) pair of each address, the key of `findOne({_id, userId})`. */
  function Keys(book: Book): (r: seq<(AddressId, UserId)>)
    ensures |r| == |book|
    ensures forall k :: 0 <= k < |book| ==> r[k] == (book[k].id, book[k].userId)
  {
    seq(|book|, k requires 0 <= k < |book| => (book[k].id, book[k].userId))
  }

  /** The user owns an address with this id. */
  predicate Owns(book: Book, user: UserId, id: AddressId) {
    (id, user) in Keys(book)
  }

  /** `findByIdAndUpdate`: the address with this id replaced. */
  function Replace(book: Book, id: AddressId, a: Address): (r: Book)
    ensures |r| == |book|
    ensures a.id == id ==> forall k :: 0 <= k < |book| ==> r[k].id == book[k].id
    ensures (forall k :: 0 <= k < |book| ==> book[k].id != id) ==> r == book
    ensures forall k :: 0 <= k < |book| ==> r[k] == if book[k].id == id then a else book[k]
  {
    seq(|book|, k requires 0 <= k < |book| => if book[k].id == id then a else book[k])
  }

  /** What an accepted edit stores, stated field by field against the address it replaces. */
  ghost predicate Edited(cur: Address, user: UserId, upd: AddressUpdate, a: Address) {
    && a.id == cur.id && a.userId == user && a.createdAt == cur.createdAt
    && a.name == Pick(upd.name, cur.name) && a.phone == Pick(upd.phone, cur.phone)
    && a.address == Pick(upd.address, cur.address) && a.city == Pick(upd.city, cur.city)
    && a.pincode == Pick(upd.pincode, cur.pincode) && a.isDefault == Pick(upd.isDefault, cur.isDefault)
    && (Truthy(OrEmpty(upd.labelText)) ==> a.labelText == upd.labelText.value)
    && (!Truthy(OrEmpty(upd.labelText)) && (Truthy(OrEmpty(upd.city)) || Truthy(OrEmpty(upd.pincode))) ==>
          a.labelText == a.city + ", " + a.pincode)
    && (!Truthy(OrEmpty(upd.labelText)) && !Truthy(OrEmpty(upd.city)) && !Truthy(OrEmpty(upd.pincode)) ==>
          a.labelText == cur.labelText)
  }

  /** `PUT /addresses/:id`: refuse a malformed id, refuse an address the user does not own,
      un-default the user's other addresses when `isDefault === true`, then store the patched
      address with its owner forced to the caller. The un-defaulting is not rolled back when
      validation then fails. */
  function Update(book: Book, user: UserId, id: AddressId, upd: AddressUpdate, validId: AddressId -> bool)
    : (r: Step<Book, Address>)
    requires UniqueIds(book)
    ensures |r.store| == |book|
    ensures forall k :: 0 <= k < |book| ==> r.store[k].id == book[k].id
    ensures r.result == Err(InvalidInput) <==> !validId(id)
    ensures !validId(id) ==> r.store == book
    ensures validId(id) && !Owns(book, user, id) ==> r == Step(book, Err(NotFound))
    ensures r.result.Ok? <==> validId(id) && Owns(book, user, id) && !BlanksRequired(upd)
    ensures validId(id) && Owns(book, user, id) && BlanksRequired(upd) ==> r.result == Err(ValidationFailed)
    ensures validId(id) && Owns(book, user, id) ==> forall k :: 0 <= k < |book| && book[k].id != id ==>
      r.store[k] == if upd.isDefault == Some(true) && book[k].userId == user then book[k].(isDefault := false) else book[k]
    ensures r.result.Ok? ==> forall k :: 0 <= k < |book| && book[k].id == id ==>
      book[k].userId == user && r.store[k] == r.result.value && Edited(book[k], user, upd, r.result.value)
    ensures r.result.Err? ==> forall k :: 0 <= k < |book| && book[k].id == id ==> r.store[k] == book[k]
    ensures r.result.Err? && !(validId(id) && Owns(book, user, id) && upd.isDefault == Some(true)) ==> r.store == book
  {
    if !validId(id) then Step(book, Err(InvalidInput))
    else
      var i := Lists.IndexOf(Keys(book), (id, user));
      if i < 0 then Step(book, Err(NotFound))
      else
        var cur := book[i];
        var cleared := if upd.isDefault == Some(true) then ClearDefaults(book, user, Some(id)) else book;
        if BlanksRequired(upd) then Step(cleared, Err(ValidationFailed))
        else
          var a := Patch(cur, user, upd);
          assert Edited(cur, user, upd, a);
          assert forall k :: 0 <= k < |book| && book[k].id == id ==> k == i;
          Step(Replace(cleared, id, a), Ok(a))
  }

  /** An accepted edit with `isDefault === true` leaves the user exactly one default address. */
  lemma UpdateSetsSingleDefault(book: Book, user: UserId, id: AddressId, upd: AddressUpdate, validId: AddressId -> bool)
    requires UniqueIds(book)
    requires upd.isDefault == Some(true)
    requires Update(book, user, id, upd, validId).result.Ok?
    ensures DefaultCount(Update(book, user, id, upd, validId).store, user) == 1
  {
    var r := Update(book, user, id, upd, validId);
    var i :| 0 <= i < |book| && Keys(book)[i] == (id, user);
    forall k | 0 <= k < |book| && k != i
      ensures !DefaultOf(r.store[k], user)
    {
      assert book[k].id != id;
    }
    CountSingle(r.store, user, i);
  }

  /** Un-defaulting everyone but position `i` (or nobody), while position `i` keeps its owner and
      gains no flag unless everyone else was un-defaulted, leaves every user with at most one default. */
  lemma {:induction false} EditKeepsOneDefault(book: Book, after: Book, user: UserId, i: nat, setDefault: bool)
    requires |after| == |book| && i < |book| && AtMostOneDefault(book)
    requires forall k :: 0 <= k < |book| && k != i ==>
      after[k] == if setDefault && book[k].userId == user then book[k].(isDefault := false) else book[k]
    requires after[i].userId == user && book[i].userId == user
    requires !setDefault && after[i].isDefault ==> book[i].isDefault
    ensures AtMostOneDefault(after)
  {
    forall u
      ensures DefaultCount(after, u) <= 1
    {
      if setDefault && u == user {
        CountSingle(after, u, i);
      } else {
        CountMonotone(book, after, u);
      }
    }
  }

  /** Editing keeps ids unique and keeps every user at no more than one default. */
  lemma UpdateKeepsInvariants(book: Book, user: UserId, id: AddressId, upd: AddressUpdate, validId: AddressId -> bool)
    requires UniqueIds(book) && AtMostOneDefault(book)
    ensures UniqueIds(Update(book, user, id, upd, validId).store)
    ensures AtMostOneDefault(Update(book, user, id, upd, validId).store)
  {
    var r := Update(book, user, id, upd, validId);
    var setDefault := upd.isDefault == Some(true);
    if validId(id) && Owns(book, user, id) {
      var i :| 0 <= i < |book| && Keys(book)[i] == (id, user);
      forall k | 0 <= k < |book| && k != i
        ensures r.store[k] == if setDefault && book[k].userId == user then book[k].(isDefault := false) else book[k]
      {
        assert book[k].id != id;
      }
      if r.result.Ok? {
        assert Edited(book[i], user, upd, r.store[i]);
      } else {
        assert r.store[i] == book[i];
      }
      EditKeepsOneDefault(book, r.store, user, i, setDefault);
    }
  }

  /** The display order of the address list: default first, then oldest first. */
  predicate Precedes(a: Address, b: Address) {
    (a.isDefault && !b.isDefault) || (a.isDefault == b.isDefault && a.createdAt <= b.createdAt)
  }

  ghost predicate InDisplayOrder(s: seq<Address>) {
    forall i, j :: 0 <= i < j < |s| ==> Precedes(s[i], s[j])
  }

  lemma ConsInDisplayOrder(x: Address, rest: seq<Address>)
    requires InDisplayOrder(rest)
    requires forall y :: y in rest ==> Precedes(x, y)
    ensures InDisplayOrder([x] + rest)
  {
    var r := [x] + rest;
    forall i, j | 0 <= i < j < |r|
      ensures Precedes(r[i], r[j])
    {
      if i == 0 { assert r[j] in rest; } else { assert r[i] == rest[i - 1] && r[j] == rest[j - 1]; }
    }
  }

  function Insert(a: Address, s: seq<Address>): (r: seq<Address>)
    requires InDisplayOrder(s)
    ensures InDisplayOrder(r)
    ensures multiset(r) == multiset(s) + multiset{a}
    ensures forall x :: x in r <==> x == a || x in s
  {
    if |s| == 0 || Precedes(a, s[0]) then [a] + s
    else
      var rest := Insert(a, s[1..]);
      forall x | x in rest
        ensures Precedes(s[0], x)
      {
        if x != a {
          var j :| 1 <= j < |s| && s[j] == x;
        }
      }
      ConsInDisplayOrder(s[0], rest);
      assert s == [s[0]] + s[1..];
      [s[0]] + rest
  }

  function SortForDisplay(s: seq<Address>): (r: seq<Address>)
    ensures InDisplayOrder(r)
    ensures multiset(r) == multiset(s)
  {
    if |s| == 0 then []
    else
      assert s == [s[0]] + s[1..];
      Insert(s[0], SortForDisplay(s[1..]))
  }

  /** `Address.find({userId})`. */
  function OwnedBy(book: Book, user: UserId): (r: seq<Address>)
    ensures forall a :: multiset(r)[a] == if a.userId == user then multiset(book)[a] else 0
  {
    if |book| == 0 then []
    else
      assert book == [book[0]] + book[1..];
      (if book[0].userId == user then [book[0]] else []) + OwnedBy(book[1..], user)
  }

  /** `GET /addresses`: exactly the user's addresses, default first, then oldest first. */
  function List(book: Book, user: UserId): (r: seq<Address>)
    ensures InDisplayOrder(r)
    ensures forall a :: multiset(r)[a] == if a.userId == user then multiset(book)[a] else 0
  {
    SortForDisplay(OwnedBy(book, user))
  }
}
