# A verified model of a shop backend's business rules

The system is the back end of a small online shop. It is an Express REST API over MongoDB, with
users, products, orders, notifications and search history. This project models the rules its
controllers apply to the stored records:

- **orders** (`Orders`): order placement validates every line item against the product table,
  then takes the ordered quantities out of stock. Status changes treat `Delivered` as terminal;
  moving an order to `Delivered` takes the quantities out of stock a second time. Only
  delivered orders can be deleted.
- **users** (`Users`): registration and login guards and the admin role change. The account
  collections live on one user record: bookmarks, cart, addresses, preferences, language and
  location.
- **catalog** (`Catalog`): page arithmetic, the discount a sale price implies, the sale toggle,
  product update, lookup and delete, the review upsert and delete, and the image check and
  upload loop of product creation.
- **access guards** (`Auth`): token selection, ordered error codes and the role check of the
  authentication middleware.
- **notifications** (`Notifications`): creating notifications, listing them, and an
  ownership-checked mark-as-read.
- **search tallies** (`Search`): a per-user recent-search list capped at 5, and a
  per-query popularity counter.

The database is one object `Store.Db`:

- Each Mongo collection is a field: products and users are maps from id to record; orders,
  notifications, recent searches and popular searches are sequences in storage order.
- A `nextId` counter issues fresh ObjectIds.
- A logical `clock` stands for `Date.now()` and `new Date()`.
- `Db.Valid()` is the invariant every controller keeps. It states that:
  - ids are fresh and orders have distinct ids;
  - emails are unique;
  - every user's bookmarks have no duplicates;
  - every cart has one line per product, each of quantity at least 1;
  - every address is complete, and at most one is the default;
  - notifications and recent searches are in creation-time order;
  - popular-search queries are distinct, each with a count of at least 1.

Each controller is a method on a `Db`. It returns a `Result`: `Ok(value)`, or `Fail` with either
`HttpError(code, reason)` (a `HandleError` or an explicit error response) or
`SchemaValidation(path)` (a Mongoose validator refusing the save). Loops in the source are
loops in the model, and each such method is proved equal to a specification function. The
properties are lemmas about those functions.

Calls into code outside the repository become parameters:

- the image host's upload: `upload`, `avatar`;
- bcrypt: `hash`, `passwordMatches`;
- `jwt.verify`: `verify`;
- the email validator: `isEmail`;
- the matching-product count that `APIFunctionality` computes: `count`.

Modules, one file each:

| file | module | source |
|---|---|---|
| `seqs.dfy` | `Seqs` | generic sequence helpers |
| `models.dfy` | `Models` | records and errors |
| `store.dfy` | `Store` | the database |
| `orders.dfy` | `Orders` | `controller/orderController.js` |
| `users.dfy` | `Users` | `controller/userController.js` |
| `catalog.dfy` | `Catalog` | `controller/productController.js` |
| `auth.dfy` | `Auth` | `middleware/userAuth.js` |
| `notifications.dfy` | `Notifications` | `controller/notificationController.js` |
| `search.dfy` | `Search` | `controller/searchController.js` |

## Model

| member | source | states |
|---|---|---|
| Orders.FindOrder | controller/orderController.js:91 | The position found holds an order with that id; nothing is found exactly when no order has the id. |
| Orders.GetSingleOrder | controller/orderController.js:52-61 | Succeeds exactly when an order has the id, and returns that order; otherwise 404 "No order found". |
| Orders.AllMyOrders | controller/orderController.js:64-73 | Returns exactly the user's orders: every order returned is theirs, and every order of theirs is returned. |
| Orders.ItemProblem | controller/orderController.js:10-22 | One item passes exactly when its product exists, is not flagged out of stock, and the quantity is within both maxOrderQuantity and stock. A missing product is a 404; every other failure is a 400. |
| Orders.FirstProblem | controller/orderController.js:9-23 | No error exactly when every item passes. Otherwise the error is that of the first failing item, and every item before it passes. |
| Orders.ValidateItems | controller/orderController.js:9-23 | The validation loop returns exactly FirstProblem on the unmodified product table. |
| Orders.TakeStock | controller/orderController.js:38-43 | The stock pass keeps the set of product ids; what it does to each product is stated by StockAfterOrder. |
| Orders.QuantityOf | controller/orderController.js:38-43 | The total quantity ordered of a product is 0 when no item names it. |
| Orders.TakeOrderedStock | controller/orderController.js:38-43 | The stock loop leaves the product table equal to TakeStock of the items. |
| Orders.StockAfterOrder | controller/orderController.js:38-43 | After the stock pass, a product some item names has lost exactly the total quantity ordered of it, and its isOutOfStock is `stock == 0`. A product no item names is unchanged. |
| Orders.DistinctOrderKeepsStock | controller/orderController.js:20-22 | For items naming distinct products that all pass validation, each product ends at its stock minus its item's quantity. That stock is at least 0, and the flag agrees. |
| Orders.RepeatedProductOverdraws | controller/orderController.js:20-41 | Two lines of 3 for a product with stock 5 both pass validation, and the stock ends at -1. |
| Orders.CreateNewOrder | controller/orderController.js:7-49 | Fails exactly when some item fails validation. The failure is the first one, and no order is stored and no stock changes. On success the order is appended under a fresh id, with the order-model default status and the current time as paidAt, and the stock pass is applied. The id counter and the clock each advance by one exactly on success. The invariant is kept. |
| Orders.SumTotalsAppend | controller/orderController.js:77-81 | Appending an order, to any list including the empty one, raises the grand total by its totalPrice. |
| Orders.SumTotalsRemove | controller/orderController.js:77-81 | Removing the order at any position lowers the grand total by its totalPrice. |
| Orders.GetAllOrders | controller/orderController.js:76-87 | Returns every order, and totalAmount equal to the sum of totalPrice over them. |
| Orders.UpdateQuantity | controller/orderController.js:112-123 | Succeeds exactly when the product exists with stock at least the quantity. Then the stock drops by the quantity and the flag is `stock == 0`. A missing product is a 404 and too little stock a 400, and both leave the table unchanged. |
| Orders.DeliverKeepsStockNonNegative | controller/orderController.js:117-121 | The per-item decrements never take a non-negative stock below 0. |
| Orders.DeliverTouchesOnlyNamed | controller/orderController.js:112-123 | A product no item names keeps its record. A product whose record changes has `isOutOfStock == (stock == 0)`. |
| Orders.DeliverDistinctSucceeds | controller/orderController.js:98-123 | For distinct products that all exist with enough stock, the delivery decrements all succeed, and each product loses exactly its item's quantity. |
| Orders.DeliverIsNotAtomic | controller/orderController.js:100-104 | A missing second product fails the delivery with 404, yet the first product has already lost its quantity. |
| Orders.DeliverFailsAtProblem | controller/orderController.js:112-123 | An item whose product is missing makes the delivery fail. With distinct products, so does an item whose stock is below its quantity. |
| Orders.DeliverDistinctSucceedsIff | controller/orderController.js:98-123 | For distinct products, the delivery succeeds exactly when every item's product exists with stock at least its quantity. Combined with UpdateOrderStatus, the order stays undelivered in every other case. |
| Orders.DeliverStock | controller/orderController.js:98-123 | The delivery decrements keep the set of product ids. An error is a 404 or a 400. No items means no change and no error. |
| Orders.DeliverItems | controller/orderController.js:100 | The loop of per-item decrements computes exactly DeliverStock: every item is processed, and the first error is reported. |
| Orders.UpdateOrderStatus | controller/orderController.js:90-110 | A missing order is a 404. A delivered order is a 400, and nothing changes. To Delivered: the decrements run; on failure the order keeps its status (earlier decrements stay); on success deliveredAt is stamped and the status set. Any other target only sets orderStatus and touches no stock. |
| Orders.DeleteOrder | controller/orderController.js:126-139 | A missing order is a 404. An order not yet delivered is also a 404, and it is kept. A delivered order is removed and no longer found. The product table never changes. |
| Users.RegisterUser | controller/userController.js:10-43 | A taken email is a 400 and no user is added, so emails stay unique. A failed avatar upload is a 500. A record the schema refuses is not stored. Otherwise the user is stored under a fresh id with the hashed password, and the id counter advances by one exactly then. |
| Users.NewUserKeepsEmailsUnique | controller/userController.js:12-18 | A new id with an email no user has keeps emails unique, and a fresh user with empty collections meets the record invariant. |
| Users.LoginUser | controller/userController.js:46-60 | An empty email or password is a 400. Every other failure is the same 401. Success happens exactly when a user with that email has a matching password, and it yields that user. |
| Users.UpdateUserRole | controller/userController.js:216-235 | Changing one's own role is a 403, checked before the lookup. An unknown target is a 400. Otherwise only the target's role changes. |
| Users.SaveUser | controller/userController.js:263 | `user.save()`: that user's record is replaced and no other record changes. The caller must keep the email and the record invariant, and then the store invariant is kept. |
| Users.AddBookmark | controller/userController.js:256-268 | An id already bookmarked is a 400, and the list is unchanged. Otherwise the id is appended. The invariant (no duplicate bookmark) is kept. |
| Users.WithoutBookmark | controller/userController.js:274 | The id is gone, every other id occurs as often as before, and a duplicate-free list stays duplicate-free. |
| Users.RemoveBookmarkIdempotent | controller/userController.js:274 | Removing twice is removing once. Removal from a concatenation is the concatenation of the removals, so the other ids keep their order. |
| Users.RemoveBookmark | controller/userController.js:271-280 | The user's bookmarks become WithoutBookmark of the old list, and nothing else changes. |
| Users.FindLine | controller/userController.js:426 | The index found holds a line for the product; nothing is found exactly when no line is for it. |
| Users.CartQuantityOfLine | controller/userController.js:426-431 | With one line per product, the quantity the cart holds of a product is its line's quantity, or 0 when it has none. |
| Users.AddedToCart | controller/userController.js:426-431 | The add succeeds exactly when the resulting quantity is at least 1. That quantity is the first line's quantity plus the amount, or the amount alone for a new line. The only failure is the schema's refusal of cart.quantity. On success the product's first line holds exactly that quantity. |
| Users.AddedToCartQuantities | controller/userController.js:426-431 | Adding raises the held quantity of the product by exactly the amount and leaves every other product's quantity unchanged. The cart grows by one line exactly when the product had none. Any failure is the schema's refusal of cart.quantity. |
| Users.AddedToCartKeepsLines | controller/userController.js:426-433 | The new cart keeps one line per product, each of quantity at least 1. |
| Users.AddToCart | controller/userController.js:422-439 | The stored cart is AddedToCart with the sent quantity, or 1 when it is falsy. A refused save changes nothing. The invariant is kept. |
| Users.UpdateCartItem | controller/userController.js:442-459 | A product without a line is a 404. A missing quantity or one below 1 is refused by the schema. Otherwise only that line's quantity changes. |
| Users.RemoveFromCart | controller/userController.js:462-473 | Exactly the lines of the product go: none of them is left, and every other line stays. |
| Users.ClearDefaults | controller/userController.js:314 | Every address is kept with its default flag cleared. |
| Users.AddedAddressesValid | controller/userController.js:313-316 | With the defaults cleared when the new address is the default, appending a complete address keeps at most one default. |
| Users.UpdatedAddressesValid | controller/userController.js:334-338 | With the defaults cleared when the rewritten address is the default, rewriting one address keeps at most one default. |
| Users.RemovedAddressesValid | controller/userController.js:356 | Removing one address keeps every address complete and at most one default. |
| Users.AddAddress | controller/userController.js:310-322 | The address is appended under a fresh id. With isDefault set, every earlier address loses its default flag first, and otherwise they stay. An incomplete address is refused and nothing is saved. The id counter advances by one exactly on success. The invariant is kept. |
| Users.FindAddress | controller/userController.js:329 | The index found holds an address with that id; nothing is found exactly when none has it. |
| Users.UpdateAddress | controller/userController.js:324-345 | An unknown id is a 404. Otherwise that address takes all the new fields, and the others lose their default flag when isDefault is set. An incomplete address is refused. The invariant is kept. |
| Users.RemoveAddress | controller/userController.js:347-363 | An unknown id is a 404. Otherwise exactly that address is removed. |
| Users.UpdatePreferences | controller/userController.js:366-379 | Each supplied key takes its supplied value, and every other key keeps its value. The key set is the union of the old and supplied keys. With no preferences object nothing changes. |
| Users.OrCurrent | controller/userController.js:400 | A non-empty value wins, and an empty one keeps the current value. |
| Users.UpdateLanguage | controller/userController.js:396-407 | The language becomes the new one, or stays as it was when the new one is empty; nothing else changes. |
| Users.UpdateLocation | controller/userController.js:409-420 | The location becomes the new one, or stays as it was when the new one is empty; nothing else changes. |
| Catalog.TotalPages | controller/productController.js:76 | The page count is the least r with `count <= 8r`, so it is `ceil(count / 8)`, and it is 0 exactly when there are no products. |
| Catalog.GetAllProducts | controller/productController.js:68-93 | The page is the sent number, or 1 when it is absent, zero or not a number. The request fails with 404 exactly when the page exceeds totalPages and some product matches. Otherwise it reports the count, 8 per page, the page and a page count equal to TotalPages of the count. |
| Catalog.DefaultPageServed | controller/productController.js:77-81 | Without a page, page 1 is served, and the check never fails. |
| Catalog.AcceptedPageStartsInRange | controller/productController.js:76-83 | A positive page that passes the check skips fewer products than match. |
| Catalog.MathRound | controller/productController.js:126-128 | The result is the nearest integer, with halves rounded up. |
| Catalog.Discount | controller/productController.js:249-251 | For a non-zero price, the discount is within one half of `(price - salePrice) / price * 100`, so it is the rounded percentage. A price of 0 gives 0. |
| Catalog.DiscountInPercentRange | controller/productController.js:249-251 | A sale price strictly between 0 and the price gives a discount between 0 and 100. |
| Catalog.SaleToggled | controller/productController.js:247-257 | The product is on sale exactly when a truthy sale price below the price is sent. Then it carries that sale price and `round((price - salePrice) / price * 100)` as the discount. Otherwise it has a null sale price and discount 0. No other field changes. |
| Catalog.ToggleConsistentAndIdempotent | controller/productController.js:247-257 | A toggled product's sale fields are consistent, and toggling again with the same sale price changes nothing. |
| Catalog.ToggleAtZeroPrice | controller/productController.js:247-252 | For a product with price 0, the sale price -5 is taken: the product goes on sale with that sale price and, in the model, discount 0. |
| Catalog.CommentlessReviewFailsValidation | models/productModel.js:28-35 | A product holding a review stored without a comment, as createReviewForProduct allows, is not accepted by the schema's validators. |
| Catalog.ToggleSaleStatus | controller/productController.js:241-261 | A missing product is a 404. The validating save refuses a product the schema does not accept, for example one holding a review without a comment, and then nothing is stored. Otherwise the stored product becomes SaleToggled. |
| Catalog.WithDerivedDiscount | controller/productController.js:125-130 | With a truthy sale price and a truthy price, the body gets the discount those prices imply and isOnSale `salePrice < price`. Otherwise the body is unchanged. Only discount and isOnSale are ever touched. |
| Catalog.Patched | controller/productController.js:132-135 | An empty body with no images leaves the product as it was. A body that sends none of reviews, numOfReviews, ratings and user leaves those four fields. A sent salePrice or stock is stored, and non-empty images replace the stored ones. |
| Catalog.UpdateProduct | controller/productController.js:97-138 | A missing product is a 404. Otherwise every field the body sends replaces the stored one, the review list, count, rating and owner included. This happens after the discount block has derived discount and isOnSale. |
| Catalog.UpdateDerivesDiscount | controller/productController.js:125-135 | With both prices sent, the discount is the one the prices imply, isOnSale is `salePrice < price`, and a sale price below the price leaves consistent sale fields. Reviews, count, rating and owner are unchanged when the body sends none of them. |
| Catalog.UpdateCanBreakReviewCount | controller/productController.js:132-135 | A body sending numOfReviews 99 for a product with no reviews stores a count that differs from the length of the review list. |
| Catalog.UpdateWithSalePriceOnlyKeepsStaleDiscount | controller/productController.js:125-130 | Sending only a new sale price keeps the stored discount, leaving sale fields that disagree. |
| Catalog.UpdateStockLeavesFlag | controller/productController.js:132-135 | Sending stock 0 leaves isOutOfStock false, unlike the order stock loops. |
| Catalog.GetSingleProduct | controller/productController.js:157-162 | Succeeds exactly for a stored id and returns that product; otherwise 404 with the capitalised message "Product Not Found". |
| Catalog.DeleteProduct | controller/productController.js:141-154 | A missing product is a 404. Otherwise the product is no longer found, and every other product is found as before. |
| Catalog.MeanRating | controller/productController.js:195-197 | The mean times the number of reviews is the sum of the ratings; an empty list has mean 0. |
| Catalog.MeanRatingBounds | controller/productController.js:195-197 | The mean of ratings that all lie in `[lo, hi]` lies in `[lo, hi]`. |
| Catalog.Rewritten | controller/productController.js:184-189 | Every review by the user takes the new rating and comment and keeps its id and name; every other review is unchanged. |
| Catalog.RewriteReviewsBy | controller/productController.js:184-189 | The forEach computes exactly Rewritten. |
| Catalog.Upserted | controller/productController.js:179-192 | An existing review by the user keeps the list's length. Without one, the list is the old list followed by exactly the new review, with the new id. |
| Catalog.UpsertedProperties | controller/productController.js:179-192 | The count grows by one exactly when the user had no review, so an existing review is updated in place. One review per user is preserved. The user ends with a review carrying the new rating and comment. |
| Catalog.WithReviews | controller/productController.js:194-197 | numOfReviews is the length of the new list, ratings is its mean, and nothing else changes. |
| Catalog.CreateReviewForProduct | controller/productController.js:165-203 | A missing product is a 400. Otherwise the requester's review is upserted (a new one under a fresh id), and the count and mean are recomputed. The id counter advances by one exactly when a new review is added. The invariant is kept. |
| Catalog.GetProductReviews | controller/productController.js:206-211 | Succeeds exactly for a stored product and returns its reviews; otherwise a 400. |
| Catalog.FilterKeepsOneReviewPerUser | controller/productController.js:218-220 | Filtering a review list keeps one review per user. |
| Catalog.WithoutReview | controller/productController.js:218-220 | Exactly the reviews with another id stay, and one review per user is kept. |
| Catalog.DeleteReview | controller/productController.js:213-232 | A missing product is a 400. Otherwise exactly the reviews with that id go, the count is the new length, and the rating is the new mean, which is 0 for an empty list. |
| Catalog.UploadImages | controller/productController.js:14-43 | A failed upload pass is either the 400 "Only image files are allowed" or the 500 "Image upload failed". |
| Catalog.UploadImagesMeaning | controller/productController.js:14-43 | The uploads succeed exactly when no file is rejected, and then yield one image per file, in order. Otherwise the first rejected file decides the error: 400 "Only image files are allowed" for a non-image, 500 "Image upload failed" for a failed upload. |
| Catalog.UploadStart | controller/productController.js:12-15 | Before the first file, nothing is uploaded yet, and the whole result is that of the remaining files. |
| Catalog.UploadFiles | controller/productController.js:12-43 | The upload loop computes exactly UploadImages. |
| Catalog.CreateProduct | controller/productController.js:9-61 | Any upload failure is returned and nothing is stored. Otherwise the body, with those images and the requester as owner, is stored under a fresh id, unless the schema refuses it: a required product string is empty, or an image or review lacks a required string. The id counter advances by one exactly when a product is stored. |
| Auth.BeforeSpace | middleware/userAuth.js:16 | `split(' ')[0]`: a prefix of the header with no space, ending at the first space or at the end. |
| Auth.BeforeSpaceOfWord | middleware/userAuth.js:16 | A word without spaces, followed by nothing or by a space, is its own first field. |
| Auth.SecondField | middleware/userAuth.js:16 | `split(' ')[1]`: undefined exactly when there is no space. Otherwise the result is the text after the first space, up to the next space or the end. |
| Auth.SelectToken | middleware/userAuth.js:10-17 | A non-empty cookie token wins. Otherwise a token is taken exactly when the header starts with "Bearer" and its second field is non-empty; the token is that field. |
| Auth.BearerHeaderRoundTrip | middleware/userAuth.js:15-17 | Without a cookie token, the header "Bearer " + token yields that token. |
| Auth.VerifyUserAuth | middleware/userAuth.js:6-42 | No token is a 401, before the secret check. A missing secret is a 500. An expired token, a malformed token, any other error and an unknown user are each a 401 with their own message. Success yields a stored user. |
| Auth.RoleBasedAccess | middleware/userAuth.js:45-51 | Passes exactly when the role is in the list; otherwise a 403 naming the role. |
| Auth.RoleAccessMonotone | middleware/userAuth.js:47 | Allowing more roles never locks a role out. A concatenated list allows a role exactly when one of its parts does. |
| Notifications.CreateNotification | controller/notificationController.js:6-22 | The notification is appended, unread, owned by the requester, and stamped with the current time. The id counter and the clock each advance by one. The invariant is kept. |
| Notifications.GetMyNotifications | controller/notificationController.js:25-34 | Returns exactly the requester's notifications. |
| Notifications.MyNotificationsNewestFirst | controller/notificationController.js:26-28 | The requester's list runs strictly newest first. |
| Notifications.CreatedComesFirst | controller/notificationController.js:9-28 | A notification just created heads its owner's list. |
| Notifications.FindNotification | controller/notificationController.js:38 | The position found holds a notification with that id; nothing is found exactly when none has it. |
| Notifications.MarkAsRead | controller/notificationController.js:37-55 | A missing id is a 404. Another user's notification is a 403. Both change nothing. The owner's notification becomes read, with every other field unchanged. Marking a read notification changes nothing, so the operation is idempotent. |
| Search.RecentFor | controller/searchController.js:12-14 | At most 5 entries, each the user's own and from the store. Exactly `min(5, n)` of them, where n is how many the user has. |
| Search.RecentAreNewest | controller/searchController.js:12-14 | The entries run strictly newest first. Any of the user's entries left out is older than every one shown, which happens only when 5 are shown. |
| Search.TopPopular | controller/searchController.js:36-38 | `min(8, n)` records of the store, none shown more often than it is stored. |
| Search.TopPopularIsTop | controller/searchController.js:36-38 | The records are in descending count order. A record left out counts no more than any record shown, which happens only when 8 are shown. |
| Search.Tallied | controller/searchController.js:15-21 | The tally either keeps the number of records or appends a new record with count 1. |
| Search.TalliedCounts | controller/searchController.js:15-21 | The query's count rises by exactly 1; for a new query, the record starts at the schema default 1. Every other query's count stays. |
| Search.TallyQuery | controller/searchController.js:15-21 | The popular-search store becomes Tallied, and queries stay distinct. |
| Search.RecordRecent | controller/searchController.js:11 | One entry for the requester, stamped with the current time, is appended, and the clock advances by one. |
| Search.NewEntryFirst | controller/searchController.js:11-14 | The entry just added heads the user's recent list. |
| Search.AddSearch | controller/searchController.js:8-26 | An empty query is refused by the schema and nothing changes. Otherwise one entry is added and the clock advances by one. The reply is the user's recent list, with that entry first. The query's popularity count rises by exactly 1, and every other count stays. |
| Search.GetSearchData | controller/searchController.js:29-48 | At most 5 recent searches, strictly newest first, and at most 8 popular queries in descending count order. |

## Left out

- Image hosting: uploads are a parameter, and `cloudinary.uploader.destroy` is not modelled. This covers the old images dropped by updateProduct and deleteProduct, and the avatar removal of deleteUser. updateProduct's uploads of body images are given as the resulting `images`; their failure paths are not modelled.
- bcrypt hashing and comparison, and JWT signing and verification, are parameters (`hash`, `passwordMatches`, `verify`). sendToken, the session cookie and the reply bodies are not modelled.
- Password reset, email sending and the crypto reset tokens are not modelled. They are I/O and randomness outside these rules.
- APIFunctionality's search, filter and pagination slice are not part of this model. getAllProducts takes the count of matching products as a parameter and models only the page check and the figures it reports.
- The concurrency of `Promise.all` is not modelled: the Delivered decrements run one after another in item order. For an order naming a product twice this changes the outcome. Take stock 5 and two lines of 3: in the source both concurrent reads see 5, both checks pass, one update is lost, the stock ends at 2 and the order is marked Delivered. In the model the second line fails with a 400 and the order keeps its status. Races between requests are not modelled either. That includes the lost updates two concurrent orders could cause and a race on the unique email.
- JavaScript floating point: the mean rating is an exact `real`, and `Math.round` acts on exact reals. Prices, quantities and ratings are integers. `Number(rating)` and a NaN or non-numeric rating are not modelled.
- Catalog.Discount: for a price of 0, JavaScript yields a non-finite discount, while the model yields 0. This is reachable: toggleSaleStatus on a product with price 0 sent a negative sale price (say -5) finds it truthy and below the price. JavaScript then stores isOnSale true with an infinite discount, and the model stores isOnSale true with discount 0 (Catalog.ToggleAtZeroPrice).
- Schema validators beyond those modelled are not checked (the modelled ones are the required strings of a product, its images and its reviews, checked by createProduct and the validating save of toggleSaleStatus): string trimming, the `maxLength` options on numbers, and the validators `findByIdAndUpdate` runs with `runValidators`. Catalog.UpdateProduct therefore stores every field the body sends, with no validation of its values.
- Product: the schema fields flashSaleEnd, variants and createdAt are not modelled fields, so updateProduct cannot set them in the model.
- Catalog.GetAllProducts: a fractional `Number(page)` is not modelled, because the page is an optional integer.
- Catalog.UpdateProduct: a body with `images: []` would clear the stored images, but the model keeps them. A `salePrice: null` sent in the body is not distinguished from an absent field.
- The order model is not part of this model, so the default order status is `Db.orderStatusDefault`, which the constructor fixes. The notification model is not part of this model either, so its validators are not modelled.
- `populate` of related records is not modelled (getSingleOrder, getBookmarks, getCart).
- Sorting ties: among popular searches with equal counts, `Seqs.SortDesc` picks one admissible order; MongoDB's order among them is not modelled.
- Time: `Date.now()` and `new Date()` are a logical clock that strictly increases with each stamped record. The real clock can repeat within a millisecond, so "newest first" among records of the same millisecond is not modelled. deliveredAt reads the clock without advancing it.
- Orders.AllMyOrders: the `if (!orders)` branch is unreachable, because `find` returns an empty list rather than nothing. The model has no such branch.
- Other user operations are not modelled; they are plain reads or single-field writes outside these rules. They are logout, password and profile updates, getUserDetails, admin user listing and deletion, getBookmarks, wallet balance, getAddresses, toggleNotifications and getCart. getAdminProducts is not modelled either.
- Routing, CORS, Swagger and server start-up are wiring and are not modelled. The help-ticket controller and the categories that getSearchData also returns are not modelled either.
- Behaviour of the source that is captured as stated and not corrected:
  - moving to Delivered decrements stock a second time;
  - deleting an undelivered order answers 404;
  - the Delivered decrements are not all-or-nothing (Orders.DeliverIsNotAtomic);
  - repeated products in one order can overdraw stock (Orders.RepeatedProductOverdraws);
  - updateProduct can leave a stale discount or a stale out-of-stock flag (Catalog.UpdateWithSalePriceOnlyKeepsStaleDiscount, Catalog.UpdateStockLeavesFlag).
