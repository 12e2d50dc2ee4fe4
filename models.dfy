/** Record shapes of the stored documents (models/productModel.js, models/userModel.js,
    models/PopularSearch.js, models/RecentSearch.js and the order and notification records the
    controllers build), the error values the controllers produce, and the invariants a stored
    record keeps. */
module Models {
  import opened Seqs

  /** A MongoDB ObjectId; ids are compared for equality only. */
  type Id = nat

  /** One value per distinct error message the controllers raise. */
  datatype Reason =
    // controller/orderController.js
    | ProductNotFoundNamed(itemName: string)
    | ProductOutOfStock(productName: string)
    | ExceedsMaxQuantity(productName: string, maxOrderQuantity: int)
    | InsufficientStock(productName: string)
    | NoOrderFound
    | AlreadyDelivered
    | OrderUnderProcessing
    // controller/productController.js ("Product not found" is also orderController.js's updateQuantity)
    | ProductNotFound              // "Product not found"
    | ProductNotFoundCapitalized   // "Product Not Found"
    | OnlyImagesAllowed
    | ImageUploadFailed
    | PageDoesNotExist
    // controller/userController.js
    | UserAlreadyExists
    | AvatarUploadFailed(detail: string)
    | EmptyCredentials
    | InvalidCredentials
    | CannotChangeOwnRole
    | UserDoesNotExist
    | AlreadyBookmarked
    | AddressNotFound
    | NotInCart
    // middleware/userAuth.js
    | AuthenticationMissing
    | SecretNotSet
    | UserNotFound
    | TokenExpired
    | InvalidToken
    | AuthenticationFailed
    | RoleNotAllowed(role: string)
    // controller/notificationController.js
    | NotificationNotFound
    | NotAuthorizedForNotification

  /** `HttpError(code, reason)` is `new HandleError(message, code)` or a `res.status(code).json(...)`
      error body; `SchemaValidation(path)` is a Mongoose validator refusing a save, whose HTTP
      status the error middleware decides. */
  datatype Failure =
    | HttpError(code: nat, reason: Reason)
    | SchemaValidation(path: string)

  datatype Result<T> = Ok(value: T) | Fail(failure: Failure)

  /** JavaScript truthiness of an optional number: absent, null, NaN (all None) and 0 are falsy. */
  predicate NumTruthy(n: Option<int>)
  {
    n.Some? && n.value != 0
  }

  /** `quantity || 1` */
  function OrOne(q: Option<int>): (r: int)
    ensures r != 0
    ensures NumTruthy(q) ==> r == q.value
  {
    if NumTruthy(q) then q.value else 1
  }

  predicate StartsWith(s: string, prefix: string)
  {
    |prefix| <= |s| && s[..|prefix|] == prefix
  }

  // ---- productModel.js -------------------------------------------------------------------

  /** An uploaded image, opaque to the model (the image host issues it). */
  datatype Image = Image(publicId: string, url: string)

  datatype Review = Review(id: Id, user: Id, name: string, rating: int, comment: string)

  datatype Product = Product(
    name: string,
    description: string,
    brand: string,
    category: string,
    price: int,
    salePrice: Option<int>,
    discount: int,
    isOnSale: bool,
    isPopular: bool,
    isBestSeller: bool,
    isFlashSale: bool,
    images: seq<Image>,
    stock: int,
    maxOrderQuantity: int,
    isOutOfStock: bool,
    tags: seq<string>,
    ratings: real,
    numOfReviews: int,
    reviews: seq<Review>,
    user: Id)

  /** The out-of-stock flag agrees with the stock count. */
  predicate StockFlagAgrees(p: Product)
  {
    p.isOutOfStock == (p.stock == 0)
  }

  /** No user has more than one review on the product. */
  predicate OneReviewPerUser(reviews: seq<Review>)
  {
    forall i, j :: 0 <= i < j < |reviews| ==> reviews[i].user != reviews[j].user
  }

  // ---- orders ----------------------------------------------------------------------------

  datatype LineItem = LineItem(product: Id, name: string, quantity: int, price: int)

  datatype Order = Order(
    id: Id,
    user: Id,
    shippingInfo: string,
    orderItems: seq<LineItem>,
    paymentInfo: string,
    itemPrice: int,
    taxPrice: int,
    shippingPrice: int,
    totalPrice: int,
    paidAt: nat,
    deliveredAt: Option<nat>,
    orderStatus: string)

  // ---- userModel.js ----------------------------------------------------------------------

  datatype CartLine = CartLine(productId: Id, quantity: int)

  datatype Address = Address(
    id: Id, street: string, city: string, state: string, country: string, postalCode: string,
    isDefault: bool)

  datatype User = User(
    name: string,
    email: string,
    password: string,
    avatar: Option<Image>,
    role: string,
    walletBalance: int,
    preferences: map<string, string>,
    language: string,
    location: string,
    cart: seq<CartLine>,
    notificationsEnabled: bool,
    bookmarks: seq<Id>,
    addresses: seq<Address>)

  /** The schema defaults of a freshly created user. */
  function NewUser(name: string, email: string, password: string, avatar: Option<Image>): User
  {
    User(name, email, password, avatar, "user", 0, map[], "en", "", [], true, [], [])
  }

  /** Mongoose's `required` refuses a missing or empty string. */
  predicate AddressComplete(a: Address)
  {
    a.street != "" && a.city != "" && a.state != "" && a.country != "" && a.postalCode != ""
  }

  predicate CartIdsDistinct(cart: seq<CartLine>)
  {
    forall i, j :: 0 <= i < j < |cart| ==> cart[i].productId != cart[j].productId
  }

  predicate AtMostOneDefault(addresses: seq<Address>)
  {
    forall i, j :: 0 <= i < j < |addresses| && addresses[i].isDefault ==> !addresses[j].isDefault
  }

  /** Every address complete, and at most one the default. */
  predicate AddressesValid(addresses: seq<Address>)
  {
    AtMostOneDefault(addresses) && forall i :: 0 <= i < |addresses| ==> AddressComplete(addresses[i])
  }

  /** What every stored user record keeps: the schema's validators (cart quantity at least 1,
      complete addresses) and the rules the account controllers maintain. */
  predicate UserInvariant(u: User)
  {
    && Distinct(u.bookmarks)
    && CartIdsDistinct(u.cart)
    && (forall i :: 0 <= i < |u.cart| ==> u.cart[i].quantity >= 1)
    && AddressesValid(u.addresses)
  }

  // ---- notifications and searches --------------------------------------------------------

  datatype Notification = Notification(
    id: Id, userId: Id, kind: string, title: string, message: string, createdAt: nat, read: bool)

  datatype RecentSearch = RecentSearch(userId: Id, query: string, createdAt: nat)

  datatype PopularSearch = PopularSearch(query: string, count: int)
}
