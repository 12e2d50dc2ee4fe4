/** Registration, login, the admin role change and the account collections kept on one user
    record: bookmarks, cart, addresses, preferences, language and location
    (controller/userController.js). Each per-user operation acts for the user the
    authentication middleware loaded, so that user is in the table. */
module Users {
  import opened Seqs
  import opened Models
  import opened Store

  // ---- register and login -------------------------------------------------------------------

  /** The avatar sent to registerUser and what the image host made of it. */
  datatype AvatarUpload = NoAvatar | Uploaded(image: Image) | UploadError(detail: string)

  /** `User.findOne({ email })` finds someone. */
  predicate EmailTaken(users: map<Id, User>, email: string)
  {
    exists id :: id in users && users[id].email == email
  }

  /** The user schema's validators on a new record: a name of 3 to 25 characters, an email
      the email validator accepts (`isEmail`) and a password of at least 8 characters. */
  predicate RegistrationValid(name: string, email: string, password: string, isEmail: string -> bool)
  {
    3 <= |name| <= 25 && email != "" && isEmail(email) && |password| >= 8
  }

  /** registerUser. A taken email is refused before anything else; a failed avatar upload is a
      500; a record the schema refuses is not stored; otherwise a user with the schema
      defaults is created under a fresh id, with the password as the save hook hashes it
      (`hash` stands for bcrypt). */
  method RegisterUser(
    db: Db, name: string, email: string, password: string, avatar: AvatarUpload,
    isEmail: string -> bool, hash: string -> string)
    returns (r: Result<Id>)
    requires db.Valid()
    modifies db`users, db`nextId
    ensures db.Valid()
    ensures EmailTaken(old(db.users), email) ==>
      r == Fail(HttpError(400, UserAlreadyExists)) && db.users == old(db.users)
    ensures !EmailTaken(old(db.users), email) && avatar.UploadError? ==>
      r == Fail(HttpError(500, AvatarUploadFailed(avatar.detail))) && db.users == old(db.users)
    ensures (!EmailTaken(old(db.users), email) && !avatar.UploadError? &&
             !RegistrationValid(name, email, password, isEmail)) ==>
      r == Fail(SchemaValidation("user")) && db.users == old(db.users)
    ensures (!EmailTaken(old(db.users), email) && !avatar.UploadError? &&
             RegistrationValid(name, email, password, isEmail)) ==>
      var image := if avatar.Uploaded? then Some(avatar.image) else None;
      && r == Ok(old(db.nextId))
      && old(db.nextId) !in old(db.users)
      && db.users == old(db.users)[old(db.nextId) := NewUser(name, email, hash(password), image)]
    ensures db.nextId == old(db.nextId) + (if r.Ok? then 1 else 0)
  {
    if exists id | id in db.users :: db.users[id].email == email {
      return Fail(HttpError(400, UserAlreadyExists));
    }
    var image: Option<Image> := None;
    match avatar {
      case UploadError(detail) =>
        return Fail(HttpError(500, AvatarUploadFailed(detail)));
      case Uploaded(img) =>
        image := Some(img);
      case NoAvatar =>
    }
    if !RegistrationValid(name, email, password, isEmail) {
      return Fail(SchemaValidation("user"));
    }
    var id := db.nextId;
    NewUserKeepsEmailsUnique(db.users, id, NewUser(name, email, hash(password), image));
    db.users := db.users[id := NewUser(name, email, hash(password), image)];
    db.nextId := db.nextId + 1;
    r := Ok(id);
  }

  /** A user stored under a new id with an email nobody has keeps emails unique. */
  lemma NewUserKeepsEmailsUnique(users: map<Id, User>, id: Id, u: User)
    requires EmailsUnique(users) && id !in users && !EmailTaken(users, u.email)
    ensures EmailsUnique(users[id := u])
    ensures u.bookmarks == [] && u.cart == [] && u.addresses == [] ==> UserInvariant(u)
  {
  }

  /** loginUser. An empty email or password is a 400; an unknown email and a wrong password
      are the same 401. `passwordMatches` stands for bcrypt's compare. */
  function LoginUser(
    users: map<Id, User>, email: string, password: string,
    passwordMatches: (string, string) -> bool)
    : (r: Result<Id>)
    requires EmailsUnique(users)
    ensures email == "" || password == "" ==> r == Fail(HttpError(400, EmptyCredentials))
    ensures email != "" && password != "" && r.Fail? ==> r == Fail(HttpError(401, InvalidCredentials))
    ensures r.Ok? <==>
      && email != "" && password != ""
      && exists id :: id in users && users[id].email == email &&
                      passwordMatches(password, users[id].password)
    ensures r.Ok? ==> r.value in users && users[r.value].email == email
  {
    if email == "" || password == "" then Fail(HttpError(400, EmptyCredentials))
    else if !EmailTaken(users, email) then Fail(HttpError(401, InvalidCredentials))
    else
      var id :| id in users && users[id].email == email;
      if !passwordMatches(password, users[id].password) then Fail(HttpError(401, InvalidCredentials))
      else Ok(id)
  }

  // ---- admin role change --------------------------------------------------------------------

  /** updateUserRole: changing one's own role is a 403, checked before the lookup; an unknown
      user is a 400; otherwise only the role changes. */
  method UpdateUserRole(db: Db, requester: Id, target: Id, role: string) returns (r: Result<User>)
    requires db.Valid()
    modifies db`users
    ensures db.Valid()
    ensures requester == target ==>
      r == Fail(HttpError(403, CannotChangeOwnRole)) && db.users == old(db.users)
    ensures requester != target && target !in old(db.users) ==>
      r == Fail(HttpError(400, UserDoesNotExist)) && db.users == old(db.users)
    ensures requester != target && target in old(db.users) ==>
      var updated := old(db.users)[target].(role := role);
      r == Ok(updated) && db.users == old(db.users)[target := updated]
  {
    if requester == target {
      return Fail(HttpError(403, CannotChangeOwnRole));
    }
    if target !in db.users {
      return Fail(HttpError(400, UserDoesNotExist));
    }
    var updated := db.users[target].(role := role);
    SaveUser(db, target, updated);
    r := Ok(updated);
  }

  /** `user.save()` of a record whose email is unchanged and which keeps the user invariant. */
  method SaveUser(db: Db, uid: Id, u: User)
    requires db.Valid() && uid in db.users
    requires u.email == db.users[uid].email && UserInvariant(u)
    modifies db`users
    ensures db.Valid()
    ensures db.users == old(db.users)[uid := u]
  {
    db.users := db.users[uid := u];
  }

  // ---- bookmarks ----------------------------------------------------------------------------

  /** addBookmark: an id already bookmarked is a 400 and changes nothing; otherwise it is
      appended, so the list stays free of duplicates (part of `db.Valid()`). */
  method AddBookmark(db: Db, uid: Id, productId: Id) returns (r: Result<seq<Id>>)
    requires db.Valid() && uid in db.users
    modifies db`users
    ensures db.Valid()
    ensures productId in old(db.users)[uid].bookmarks ==>
      r == Fail(HttpError(400, AlreadyBookmarked)) && db.users == old(db.users)
    ensures productId !in old(db.users)[uid].bookmarks ==>
      var u := old(db.users)[uid];
      r == Ok(u.bookmarks + [productId]) &&
      db.users == old(db.users)[uid := u.(bookmarks := u.bookmarks + [productId])]
  {
    var u := db.users[uid];
    if productId in u.bookmarks {
      return Fail(HttpError(400, AlreadyBookmarked));
    }
    var bookmarks := u.bookmarks + [productId];
    SaveUser(db, uid, u.(bookmarks := bookmarks));
    r := Ok(bookmarks);
  }

  function IsNot(id: Id): Id -> bool
  {
    (x: Id) => x != id
  }

  /** The bookmarks left after removing `productId`: no occurrence of it, every other id as
      often as before and in the same order. */
  function WithoutBookmark(bookmarks: seq<Id>, productId: Id): (r: seq<Id>)
    ensures productId !in r
    ensures forall x :: x != productId ==> multiset(r)[x] == multiset(bookmarks)[x]
    ensures Distinct(bookmarks) ==> Distinct(r)
  {
    FilterWithoutFacts(bookmarks, productId);
    Filter(bookmarks, IsNot(productId))
  }

  lemma {:induction false} FilterWithoutFacts(s: seq<Id>, id: Id)
    ensures id !in Filter(s, IsNot(id))
    ensures forall x :: x != id ==> multiset(Filter(s, IsNot(id)))[x] == multiset(s)[x]
    ensures Distinct(s) ==> Distinct(Filter(s, IsNot(id)))
  {
    forall x | x != id ensures multiset(Filter(s, IsNot(id)))[x] == multiset(s)[x] {
      FilterMultiset(s, IsNot(id), x);
    }
    if Distinct(s) {
      FilterKeepsDistinct(s, IsNot(id));
    }
  }

  lemma {:induction false} FilterKeepsDistinct(s: seq<Id>, p: Id -> bool)
    requires Distinct(s)
    ensures Distinct(Filter(s, p))
  {
    if s != [] {
      FilterKeepsDistinct(s[1..], p);
      assert s[0] !in s[1..];
      assert s[0] !in Filter(s[1..], p);
    }
  }

  /** Removing a bookmark twice is removing it once, and the removal keeps relative order:
      removing from a concatenation removes from each part. */
  lemma RemoveBookmarkIdempotent(bookmarks: seq<Id>, productId: Id, more: seq<Id>)
    ensures WithoutBookmark(WithoutBookmark(bookmarks, productId), productId) ==
            WithoutBookmark(bookmarks, productId)
    ensures WithoutBookmark(bookmarks + more, productId) ==
            WithoutBookmark(bookmarks, productId) + WithoutBookmark(more, productId)
  {
    FilterIdempotent(bookmarks, IsNot(productId));
    FilterConcat(bookmarks, more, IsNot(productId));
  }

  /** removeBookmark. */
  method RemoveBookmark(db: Db, uid: Id, productId: Id) returns (bookmarks: seq<Id>)
    requires db.Valid() && uid in db.users
    modifies db`users
    ensures db.Valid()
    ensures bookmarks == WithoutBookmark(old(db.users)[uid].bookmarks, productId)
    ensures db.users == old(db.users)[uid := old(db.users)[uid].(bookmarks := bookmarks)]
  {
    var u := db.users[uid];
    bookmarks := WithoutBookmark(u.bookmarks, productId);
    SaveUser(db, uid, u.(bookmarks := bookmarks));
  }

  // ---- cart ---------------------------------------------------------------------------------

  function LineFor(productId: Id): CartLine -> bool
  {
    (line: CartLine) => line.productId == productId
  }

  /** `user.cart.findIndex(item => item.productId === productId)` */
  function FindLine(cart: seq<CartLine>, productId: Id): (r: Option<nat>)
    ensures r.Some? ==> r.value < |cart| && cart[r.value].productId == productId
    ensures r.None? <==> forall j :: 0 <= j < |cart| ==> cart[j].productId != productId
  {
    FindFirst(cart, LineFor(productId))
  }

  /** A line's quantity when it is for `productId`, else 0. */
  function QuantityFor(productId: Id): CartLine -> int
  {
    (line: CartLine) => if line.productId == productId then line.quantity else 0
  }

  /** The quantity of `productId` summed over every cart line: what the cart holds of it,
      however the lines are arranged. */
  function CartQuantity(cart: seq<CartLine>, productId: Id): int
  {
    SumOf(cart, QuantityFor(productId))
  }

  /** With distinct product ids, the quantity a cart holds of a product is that of its line. */
  lemma {:induction false} CartQuantityOfLine(cart: seq<CartLine>, productId: Id)
    requires CartIdsDistinct(cart)
    ensures CartQuantity(cart, productId) ==
      if FindLine(cart, productId).Some? then cart[FindLine(cart, productId).value].quantity else 0
  {
    if cart != [] {
      var n := |cart| - 1;
      CartQuantityOfLine(cart[..n], productId);
      var head := FindLine(cart[..n], productId);
      if head.Some? {
        assert cart[head.value].productId == productId;
        assert cart[n].productId != productId;
        assert FindLine(cart, productId) == head by {
          FindFirstPrefix(cart, n, LineFor(productId));
        }
      } else {
        assert FindLine(cart, productId).Some? ==> FindLine(cart, productId).value == n by {
          FindFirstPrefix(cart, n, LineFor(productId));
        }
      }
    }
  }

  /** The quantity the product's line has after adding `add`: its first line's quantity plus
      `add`, or `add` for a new line. */
  function ResultingQuantity(cart: seq<CartLine>, productId: Id, add: int): int
  {
    match FindLine(cart, productId)
    case Some(k) => cart[k].quantity + add
    case None => add
  }

  /** addToCart's new cart: an existing line for the product grows by `add` in place,
      otherwise a line with `add` is appended; a resulting quantity below 1 is refused by the
      schema's `min: 1`. */
  function AddedToCart(cart: seq<CartLine>, productId: Id, add: int): (r: Result<seq<CartLine>>)
    ensures r.Ok? <==> ResultingQuantity(cart, productId, add) >= 1
    ensures r.Fail? ==> r.failure == SchemaValidation("cart.quantity")
    ensures r.Ok? ==>
      && FindLine(r.value, productId).Some?
      && r.value[FindLine(r.value, productId).value].quantity == ResultingQuantity(cart, productId, add)
  {
    match FindLine(cart, productId)
    case Some(k) =>
      var q := cart[k].quantity + add;
      if q < 1 then Fail(SchemaValidation("cart.quantity"))
      else
        var grown := cart[k := cart[k].(quantity := q)];
        assert grown[k].productId == productId;
        Ok(grown)
    case None =>
      if add < 1 then Fail(SchemaValidation("cart.quantity"))
      else
        var grown := cart + [CartLine(productId, add)];
        assert grown[|cart|].productId == productId;
        Ok(grown)
  }

  /** Adding to the cart raises what it holds of the product by exactly `add` and leaves every
      other product's quantity as it was; the cart grows by a line only when the product had
      none. */
  lemma AddedToCartQuantities(cart: seq<CartLine>, productId: Id, add: int)
    ensures var r := AddedToCart(cart, productId, add);
      && (r.Fail? ==> r.failure == SchemaValidation("cart.quantity"))
      && (r.Ok? ==>
            && (forall other :: CartQuantity(r.value, other) ==
                  CartQuantity(cart, other) + (if other == productId then add else 0))
            && |r.value| == (if FindLine(cart, productId).Some? then |cart| else |cart| + 1))
  {
    var r := AddedToCart(cart, productId, add);
    if r.Ok? {
      match FindLine(cart, productId) {
        case Some(k) =>
          var line := cart[k].(quantity := cart[k].quantity + add);
          forall other ensures CartQuantity(r.value, other) ==
            CartQuantity(cart, other) + (if other == productId then add else 0) {
            SumOfUpdate(cart, k, line, QuantityFor(other));
          }
        case None =>
          var line := CartLine(productId, add);
          forall other ensures CartQuantity(r.value, other) ==
            CartQuantity(cart, other) + (if other == productId then add else 0) {
            SumOfConcat(cart, [line], QuantityFor(other));
            assert [line][..0] == [];
          }
      }
    }
  }

  /** The cart addToCart stores keeps one line per product, each of quantity at least 1. */
  lemma AddedToCartKeepsLines(cart: seq<CartLine>, productId: Id, add: int)
    requires CartIdsDistinct(cart) && forall i :: 0 <= i < |cart| ==> cart[i].quantity >= 1
    ensures var r := AddedToCart(cart, productId, add);
      r.Ok? ==> CartIdsDistinct(r.value) && forall i :: 0 <= i < |r.value| ==> r.value[i].quantity >= 1
  {
  }

  /** addToCart, with `quantity || 1` as the amount added (what the cart then holds is
      AddedToCartQuantities). */
  method AddToCart(db: Db, uid: Id, productId: Id, quantity: Option<int>) returns (r: Result<seq<CartLine>>)
    requires db.Valid() && uid in db.users
    modifies db`users
    ensures db.Valid()
    ensures r == AddedToCart(old(db.users)[uid].cart, productId, OrOne(quantity))
    ensures r.Fail? ==> r == Fail(SchemaValidation("cart.quantity")) && db.users == old(db.users)
    ensures r.Ok? ==> db.users == old(db.users)[uid := old(db.users)[uid].(cart := r.value)]
  {
    var u := db.users[uid];
    var add := OrOne(quantity);
    var cart: seq<CartLine>;
    var found := FindLine(u.cart, productId);
    if found.Some? {
      var k := found.value;
      cart := u.cart[k := u.cart[k].(quantity := u.cart[k].quantity + add)];
      if cart[k].quantity < 1 {
        return Fail(SchemaValidation("cart.quantity"));
      }
    } else {
      cart := u.cart + [CartLine(productId, add)];
      if add < 1 {
        return Fail(SchemaValidation("cart.quantity"));
      }
    }
    AddedToCartKeepsLines(u.cart, productId, add);
    SaveUser(db, uid, u.(cart := cart));
    r := Ok(cart);
  }

  /** updateCartItem: a product without a line is a 404; a missing quantity or one below 1 is
      refused by the schema; otherwise only that line's quantity changes. */
  method UpdateCartItem(db: Db, uid: Id, productId: Id, quantity: Option<int>) returns (r: Result<seq<CartLine>>)
    requires db.Valid() && uid in db.users
    modifies db`users
    ensures db.Valid()
    ensures var cart := old(db.users)[uid].cart;
      && (FindLine(cart, productId).None? ==>
            r == Fail(HttpError(404, NotInCart)) && db.users == old(db.users))
      && (FindLine(cart, productId).Some? && (quantity.None? || quantity.value < 1) ==>
            r == Fail(SchemaValidation("cart.quantity")) && db.users == old(db.users))
      && (FindLine(cart, productId).Some? && quantity.Some? && quantity.value >= 1 ==>
            var k := FindLine(cart, productId).value;
            var updated := cart[k := cart[k].(quantity := quantity.value)];
            r == Ok(updated) && db.users == old(db.users)[uid := old(db.users)[uid].(cart := updated)])
  {
    var u := db.users[uid];
    var found := FindLine(u.cart, productId);
    if found.None? {
      return Fail(HttpError(404, NotInCart));
    }
    var k := found.value;
    if quantity.None? || quantity.value < 1 {
      return Fail(SchemaValidation("cart.quantity"));
    }
    var cart := u.cart[k := u.cart[k].(quantity := quantity.value)];
    SaveUser(db, uid, u.(cart := cart));
    r := Ok(cart);
  }

  function LineNotFor(productId: Id): CartLine -> bool
  {
    (line: CartLine) => line.productId != productId
  }

  /** removeFromCart: exactly the lines of `productId` go; the others stay in order. */
  method RemoveFromCart(db: Db, uid: Id, productId: Id) returns (cart: seq<CartLine>)
    requires db.Valid() && uid in db.users
    modifies db`users
    ensures db.Valid()
    ensures cart == Filter(old(db.users)[uid].cart, LineNotFor(productId))
    ensures forall i :: 0 <= i < |cart| ==> cart[i].productId != productId
    ensures var before := old(db.users)[uid].cart;
      forall i :: 0 <= i < |before| && before[i].productId != productId ==> before[i] in cart
    ensures db.users == old(db.users)[uid := old(db.users)[uid].(cart := cart)]
  {
    var u := db.users[uid];
    cart := Filter(u.cart, LineNotFor(productId));
    assert forall i :: 0 <= i < |cart| ==> LineNotFor(productId)(cart[i]);
    FilterKeepsDistinctLines(u.cart, LineNotFor(productId));
    FilterKeepsPositive(u.cart, LineNotFor(productId));
    SaveUser(db, uid, u.(cart := cart));
  }

  function LineProductId(line: CartLine): Id
  {
    line.productId
  }

  lemma FilterKeepsDistinctLines(cart: seq<CartLine>, p: CartLine -> bool)
    requires CartIdsDistinct(cart)
    ensures CartIdsDistinct(Filter(cart, p))
  {
    assert DistinctBy(cart, LineProductId) by {
      forall i, j | 0 <= i < j < |cart| ensures LineProductId(cart[i]) != LineProductId(cart[j]) {
      }
    }
    FilterKeepsDistinctBy(cart, p, LineProductId);
    var r := Filter(cart, p);
    forall i, j | 0 <= i < j < |r| ensures r[i].productId != r[j].productId {
      assert LineProductId(r[i]) != LineProductId(r[j]);
    }
  }

  /** Whatever holds of every line holds of every line a filter keeps. */
  lemma FilterKeepsPositive(cart: seq<CartLine>, p: CartLine -> bool)
    requires forall i :: 0 <= i < |cart| ==> cart[i].quantity >= 1
    ensures forall i :: 0 <= i < |Filter(cart, p)| ==> Filter(cart, p)[i].quantity >= 1
  {
    var r := Filter(cart, p);
    forall i | 0 <= i < |r| ensures r[i].quantity >= 1 {
      var k :| 0 <= k < |cart| && cart[k] == r[i];
    }
  }

  // ---- addresses ----------------------------------------------------------------------------

  /** The forEach of addAddress and updateAddress that clears every default flag. */
  method ClearDefaults(addresses: seq<Address>) returns (cleared: seq<Address>)
    ensures |cleared| == |addresses|
    ensures forall i :: 0 <= i < |addresses| ==> cleared[i] == addresses[i].(isDefault := false)
  {
    cleared := addresses;
    var i := 0;
    while i < |cleared|
      invariant 0 <= i <= |cleared| == |addresses|
      invariant forall j :: 0 <= j < i ==> cleared[j] == addresses[j].(isDefault := false)
      invariant forall j :: i <= j < |cleared| ==> cleared[j] == addresses[j]
    {
      cleared := cleared[i := cleared[i].(isDefault := false)];
      i := i + 1;
    }
  }

  /** addAddress: with `isDefault` set, every other address stops being the default first;
      the new address is appended under a fresh id. An incomplete address is refused by the
      schema and nothing is saved. */
  method AddAddress(
    db: Db, uid: Id, street: string, city: string, state: string, country: string,
    postalCode: string, isDefault: bool)
    returns (r: Result<seq<Address>>)
    requires db.Valid() && uid in db.users
    modifies db`users, db`nextId
    ensures db.Valid()
    ensures var added := Address(old(db.nextId), street, city, state, country, postalCode, isDefault);
      && (!AddressComplete(added) ==>
            r == Fail(SchemaValidation("addresses")) && db.users == old(db.users))
      && (AddressComplete(added) ==>
            var before := old(db.users)[uid].addresses;
            && r.Ok?
            && |r.value| == |before| + 1 && r.value[|before|] == added
            && (forall i :: 0 <= i < |before| ==>
                  r.value[i] == if isDefault then before[i].(isDefault := false) else before[i])
            && db.users == old(db.users)[uid := old(db.users)[uid].(addresses := r.value)])
    ensures db.nextId == old(db.nextId) + (if r.Ok? then 1 else 0)
  {
    var u := db.users[uid];
    var addresses := u.addresses;
    if isDefault {
      addresses := ClearDefaults(addresses);
    }
    var added := Address(db.nextId, street, city, state, country, postalCode, isDefault);
    if !AddressComplete(added) {
      return Fail(SchemaValidation("addresses"));
    }
    AddedAddressesValid(u.addresses, addresses, added);
    addresses := addresses + [added];
    db.nextId := db.nextId + 1;
    SaveUser(db, uid, u.(addresses := addresses));
    r := Ok(addresses);
  }

  /** What the default-clearing step leaves: with a new default every flag is cleared, and
      otherwise nothing changes. */
  predicate ClearedFor(before: seq<Address>, cleared: seq<Address>, isDefault: bool)
  {
    && |cleared| == |before|
    && (forall i :: 0 <= i < |before| ==>
          cleared[i] == if isDefault then before[i].(isDefault := false) else before[i])
  }

  /** Appending a complete address after the clearing step keeps at most one default. */
  lemma AddedAddressesValid(before: seq<Address>, cleared: seq<Address>, added: Address)
    requires AddressesValid(before) && AddressComplete(added)
    requires ClearedFor(before, cleared, added.isDefault)
    ensures AddressesValid(cleared + [added])
  {
    var after := cleared + [added];
    forall i | 0 <= i < |after| ensures AddressComplete(after[i]) {
      if i < |cleared| {
        assert after[i] == cleared[i];
        assert AddressComplete(before[i]);
      }
    }
    forall i, j | 0 <= i < j < |after| && after[i].isDefault ensures !after[j].isDefault {
      assert after[i] == cleared[i];
      if j < |cleared| {
        assert after[j] == cleared[j];
      }
    }
  }

  /** Rewriting one address after the clearing step keeps at most one default. */
  lemma UpdatedAddressesValid(before: seq<Address>, cleared: seq<Address>, k: nat, updated: Address)
    requires AddressesValid(before) && AddressComplete(updated) && k < |before|
    requires ClearedFor(before, cleared, updated.isDefault)
    ensures AddressesValid(cleared[k := updated])
  {
    var after := cleared[k := updated];
    forall i | 0 <= i < |after| ensures AddressComplete(after[i]) {
      if i != k {
        assert after[i] == cleared[i];
        assert AddressComplete(before[i]);
      }
    }
    forall i, j | 0 <= i < j < |after| && after[i].isDefault ensures !after[j].isDefault {
      if i != k {
        assert after[i] == cleared[i];
      }
      if j != k {
        assert after[j] == cleared[j];
      }
    }
  }

  lemma RemovedAddressesValid(before: seq<Address>, k: nat)
    requires AddressesValid(before) && k < |before|
    ensures AddressesValid(before[..k] + before[k + 1..])
  {
    var after := before[..k] + before[k + 1..];
    forall i | 0 <= i < |after| ensures after[i] == before[if i < k then i else i + 1] {
    }
  }

  function AddressHasId(id: Id): Address -> bool
  {
    (a: Address) => a.id == id
  }

  /** `user.addresses.id(id)` */
  function FindAddress(addresses: seq<Address>, id: Id): (r: Option<nat>)
    ensures r.Some? ==> r.value < |addresses| && addresses[r.value].id == id
    ensures r.None? <==> forall j :: 0 <= j < |addresses| ==> addresses[j].id != id
  {
    FindFirst(addresses, AddressHasId(id))
  }

  /** updateAddress: an unknown id is a 404; with `isDefault` set, every other default is
      cleared first; the address takes the new fields (all of them, as `Object.assign` does). */
  method UpdateAddress(
    db: Db, uid: Id, id: Id, street: string, city: string, state: string, country: string,
    postalCode: string, isDefault: bool)
    returns (r: Result<seq<Address>>)
    requires db.Valid() && uid in db.users
    modifies db`users
    ensures db.Valid()
    ensures var before := old(db.users)[uid].addresses;
      var updated := Address(id, street, city, state, country, postalCode, isDefault);
      && (FindAddress(before, id).None? ==>
            r == Fail(HttpError(404, AddressNotFound)) && db.users == old(db.users))
      && (FindAddress(before, id).Some? && !AddressComplete(updated) ==>
            r == Fail(SchemaValidation("addresses")) && db.users == old(db.users))
      && (FindAddress(before, id).Some? && AddressComplete(updated) ==>
            var k := FindAddress(before, id).value;
            && r.Ok? && |r.value| == |before| && r.value[k] == updated
            && (forall i :: 0 <= i < |before| && i != k ==>
                  r.value[i] == if isDefault then before[i].(isDefault := false) else before[i])
            && db.users == old(db.users)[uid := old(db.users)[uid].(addresses := r.value)])
  {
    var u := db.users[uid];
    var found := FindAddress(u.addresses, id);
    if found.None? {
      return Fail(HttpError(404, AddressNotFound));
    }
    var k := found.value;
    var addresses := u.addresses;
    if isDefault {
      addresses := ClearDefaults(addresses);
    }
    var updated := Address(id, street, city, state, country, postalCode, isDefault);
    if !AddressComplete(updated) {
      return Fail(SchemaValidation("addresses"));
    }
    UpdatedAddressesValid(u.addresses, addresses, k, updated);
    addresses := addresses[k := updated];
    SaveUser(db, uid, u.(addresses := addresses));
    r := Ok(addresses);
  }

  /** removeAddress: an unknown id is a 404; otherwise exactly that address goes. */
  method RemoveAddress(db: Db, uid: Id, id: Id) returns (r: Result<seq<Address>>)
    requires db.Valid() && uid in db.users
    modifies db`users
    ensures db.Valid()
    ensures var before := old(db.users)[uid].addresses;
      && (FindAddress(before, id).None? ==>
            r == Fail(HttpError(404, AddressNotFound)) && db.users == old(db.users))
      && (FindAddress(before, id).Some? ==>
            var k := FindAddress(before, id).value;
            r == Ok(before[..k] + before[k + 1..]) &&
            db.users == old(db.users)[uid := old(db.users)[uid].(addresses := r.value)])
  {
    var u := db.users[uid];
    var found := FindAddress(u.addresses, id);
    if found.None? {
      return Fail(HttpError(404, AddressNotFound));
    }
    var k := found.value;
    var addresses := u.addresses[..k] + u.addresses[k + 1..];
    RemovedAddressesValid(u.addresses, k);
    SaveUser(db, uid, u.(addresses := addresses));
    r := Ok(addresses);
  }

  // ---- preferences, language, location ------------------------------------------------------

  /** updatePreferences: each supplied key is set to its new value; keys not supplied keep
      theirs. Without a preferences object nothing changes. */
  method UpdatePreferences(db: Db, uid: Id, preferences: Option<map<string, string>>)
    returns (merged: map<string, string>)
    requires db.Valid() && uid in db.users
    modifies db`users
    ensures db.Valid()
    ensures preferences.None? ==> merged == old(db.users)[uid].preferences
    ensures preferences.Some? ==>
      && merged.Keys == old(db.users)[uid].preferences.Keys + preferences.value.Keys
      && (forall k :: k in preferences.value ==> merged[k] == preferences.value[k])
      && (forall k :: k in old(db.users)[uid].preferences && k !in preferences.value ==>
            merged[k] == old(db.users)[uid].preferences[k])
    ensures db.users == old(db.users)[uid := old(db.users)[uid].(preferences := merged)]
  {
    var u := db.users[uid];
    merged := u.preferences;
    if preferences.Some? {
      var supplied := preferences.value;
      var pending := supplied.Keys;
      while pending != {}
        invariant pending <= supplied.Keys
        invariant merged.Keys == u.preferences.Keys + (supplied.Keys - pending)
        invariant forall k :: k in supplied && k !in pending ==> merged[k] == supplied[k]
        invariant forall k :: k in u.preferences && k !in supplied ==> merged[k] == u.preferences[k]
        invariant forall k :: k in u.preferences && k in pending ==> merged[k] == u.preferences[k]
        decreases pending
      {
        var key :| key in pending;
        merged := merged[key := supplied[key]];
        pending := pending - {key};
      }
    }
    SaveUser(db, uid, u.(preferences := merged));
  }

  /** `value || current`: an empty value keeps the current one. */
  function OrCurrent(value: string, current: string): (r: string)
    ensures value != "" ==> r == value
    ensures value == "" ==> r == current
  {
    if value != "" then value else current
  }

  /** updateLanguage. */
  method UpdateLanguage(db: Db, uid: Id, language: string) returns (result: string)
    requires db.Valid() && uid in db.users
    modifies db`users
    ensures db.Valid()
    ensures result == OrCurrent(language, old(db.users)[uid].language)
    ensures db.users == old(db.users)[uid := old(db.users)[uid].(language := result)]
  {
    var u := db.users[uid];
    result := OrCurrent(language, u.language);
    SaveUser(db, uid, u.(language := result));
  }

  /** updateLocation. */
  method UpdateLocation(db: Db, uid: Id, location: string) returns (result: string)
    requires db.Valid() && uid in db.users
    modifies db`users
    ensures db.Valid()
    ensures result == OrCurrent(location, old(db.users)[uid].location)
    ensures db.users == old(db.users)[uid := old(db.users)[uid].(location := result)]
  {
    var u := db.users[uid];
    result := OrCurrent(location, u.location);
    SaveUser(db, uid, u.(location := result));
  }
}
