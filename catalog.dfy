/** The catalog rules of controller/productController.js: paging, the discount a sale price
    implies, the sale toggle, product update, delete and lookup, the review upsert and delete,
    and the image check of product creation. */
module Catalog {
  import opened Seqs
  import opened Models
  import opened Store

  // ---- paging -------------------------------------------------------------------------------

  const ResultsPerPage: nat := 8

  /** `Math.ceil(productCount / resultsPerPage)` */
  function TotalPages(count: nat): (r: nat)
    ensures count <= r * ResultsPerPage
    ensures r > 0 ==> (r - 1) * ResultsPerPage < count
    ensures r == 0 <==> count == 0
  {
    (count + ResultsPerPage - 1) / ResultsPerPage
  }

  /** What getAllProducts reports beside the page of products itself. */
  datatype PageInfo = PageInfo(productCount: nat, resultsPerPage: nat, totalPages: nat, currentPage: int)

  /** getAllProducts' page check, for `count` products matching the query. The requested page
      is `Number(page) || 1` (None stands for an absent or non-numeric page); a page beyond the
      last is a 404 unless nothing matches at all. */
  function GetAllProducts(count: nat, page: Option<int>): (r: Result<PageInfo>)
    ensures r.Fail? <==> count > 0 && OrOne(page) > TotalPages(count)
    ensures r.Fail? ==> r.failure == HttpError(404, PageDoesNotExist)
    ensures r.Ok? ==> r.value.productCount == count && r.value.resultsPerPage == ResultsPerPage
    ensures r.Ok? ==> r.value.currentPage == OrOne(page)
    ensures r.Ok? ==> r.value.totalPages == TotalPages(count)
  {
    var current := OrOne(page);
    var total := TotalPages(count);
    if current > total && count > 0 then Fail(HttpError(404, PageDoesNotExist))
    else Ok(PageInfo(count, ResultsPerPage, total, current))
  }

  /** Without a page number the first page is served, and it never fails. */
  lemma DefaultPageServed(count: nat)
    ensures GetAllProducts(count, None).Ok?
    ensures GetAllProducts(count, None).value.currentPage == 1
  {
  }

  /** A positive page that passes the check starts inside the matching products: the products
      skipped before it are fewer than those that match. */
  lemma {:induction false} AcceptedPageStartsInRange(count: nat, page: int)
    requires count > 0 && page >= 1
    requires GetAllProducts(count, Some(page)).Ok?
    ensures (page - 1) * ResultsPerPage < count
  {
    var total := TotalPages(count);
    assert page <= total;
    assert (page - 1) * ResultsPerPage <= (total - 1) * ResultsPerPage;
  }

  // ---- discount and the sale toggle ---------------------------------------------------------

  /** `Math.round(x)`: the nearest integer, halves rounded up. */
  function MathRound(x: real): (r: int)
    ensures r as real - 0.5 <= x < r as real + 0.5
  {
    (x + 0.5).Floor
  }

  /** `Math.round((price - salePrice) / price * 100)`, in exact arithmetic. */
  function Discount(price: int, salePrice: int): (r: int)
    ensures price != 0 ==>
      var percent := (price - salePrice) as real / price as real * 100.0;
      r as real - 0.5 <= percent < r as real + 0.5
    ensures price == 0 ==> r == 0
  {
    if price == 0 then 0
    else MathRound((price - salePrice) as real / price as real * 100.0)
  }

  /** A sale price strictly between 0 and the price gives a discount between 0 and 100. */
  lemma DiscountInPercentRange(price: int, salePrice: int)
    requires 0 < salePrice < price
    ensures 0 <= Discount(price, salePrice) <= 100
  {
    var q := (price - salePrice) as real / price as real;
    assert q * price as real == (price - salePrice) as real;
    assert 0.0 < q < 1.0;
  }

  /** The sale fields agree: on sale exactly with a sale price below the price and the
      discount it implies; otherwise no sale price and no discount. */
  predicate SaleConsistent(p: Product)
  {
    if p.isOnSale then
      p.salePrice.Some? && p.salePrice.value < p.price && p.discount == Discount(p.price, p.salePrice.value)
    else
      p.salePrice.None? && p.discount == 0
  }

  /** The product as toggleSaleStatus leaves it. */
  function SaleToggled(p: Product, salePrice: Option<int>): (r: Product)
    ensures r.isOnSale <==> NumTruthy(salePrice) && salePrice.value < p.price
    ensures r.isOnSale ==> r.salePrice == salePrice && r.discount == Discount(p.price, salePrice.value)
    ensures !r.isOnSale ==> r.salePrice.None? && r.discount == 0
    ensures r == p.(salePrice := r.salePrice, discount := r.discount, isOnSale := r.isOnSale)
  {
    if NumTruthy(salePrice) && salePrice.value < p.price then
      p.(salePrice := salePrice, discount := Discount(p.price, salePrice.value), isOnSale := true)
    else
      p.(salePrice := None, discount := 0, isOnSale := false)
  }

  /** Whatever it was before, a toggled product has consistent sale fields, and toggling again
      with the same sale price changes nothing. */
  lemma ToggleConsistentAndIdempotent(p: Product, salePrice: Option<int>)
    ensures SaleConsistent(SaleToggled(p, salePrice))
    ensures SaleToggled(SaleToggled(p, salePrice), salePrice) == SaleToggled(p, salePrice)
  {
  }

  /** A negative sale price is truthy and lies below a price of 0, so the toggle puts a product
      with price 0 on sale; the division by the price has no finite value there, and the model
      records discount 0. */
  lemma ToggleAtZeroPrice(p: Product)
    requires p.price == 0
    ensures var q := SaleToggled(p, Some(-5));
      q.isOnSale && q.salePrice == Some(-5) && q.discount == 0
  {
  }

  /** A product record the schema's validators accept: the required strings of the product,
      of each image and of each review are present (Mongoose's `required` refuses ""). */
  predicate ProductComplete(p: Product)
  {
    && p.name != "" && p.description != "" && p.brand != "" && p.category != ""
    && (forall i :: 0 <= i < |p.images| ==> p.images[i].publicId != "" && p.images[i].url != "")
    && (forall i :: 0 <= i < |p.reviews| ==> p.reviews[i].name != "" && p.reviews[i].comment != "")
  }

  /** A review saved without a comment (createReviewForProduct skips validation) leaves a
      product that a validating save then refuses. */
  lemma CommentlessReviewFailsValidation(p: Product, user: Id, name: string, rating: int, newId: Id)
    ensures !ProductComplete(WithReviews(p, Upserted(p.reviews, user, name, rating, "", newId)))
  {
    UpsertedProperties(p.reviews, user, name, rating, "", newId);
  }

  /** toggleSaleStatus: a missing product is a 404; the validating `product.save()` refuses a
      record the schema does not accept, and then nothing is stored. */
  method ToggleSaleStatus(db: Db, id: Id, salePrice: Option<int>) returns (r: Result<Product>)
    requires db.Valid()
    modifies db`products
    ensures db.Valid()
    ensures id !in old(db.products) ==>
      r == Fail(HttpError(404, ProductNotFound)) && db.products == old(db.products)
    ensures id in old(db.products) && !ProductComplete(old(db.products)[id]) ==>
      r == Fail(SchemaValidation("product")) && db.products == old(db.products)
    ensures id in old(db.products) && ProductComplete(old(db.products)[id]) ==>
      r == Ok(SaleToggled(old(db.products)[id], salePrice)) &&
      db.products == old(db.products)[id := r.value]
  {
    if id !in db.products {
      return Fail(HttpError(404, ProductNotFound));
    }
    var p := db.products[id];
    if NumTruthy(salePrice) && salePrice.value < p.price {
      p := p.(salePrice := salePrice);
      p := p.(discount := Discount(p.price, salePrice.value));
      p := p.(isOnSale := true);
    } else {
      p := p.(salePrice := None);
      p := p.(discount := 0);
      p := p.(isOnSale := false);
    }
    if !ProductComplete(p) {
      return Fail(SchemaValidation("product"));
    }
    db.products := db.products[id := p];
    r := Ok(p);
  }

  // ---- update, delete, lookup ---------------------------------------------------------------

  /** The fields of an updateProduct body; None is a field the body leaves out. Every stored
      field can be sent, the review list, its count, the rating and the owner included. */
  datatype ProductPatch = ProductPatch(
    name: Option<string>,
    description: Option<string>,
    brand: Option<string>,
    category: Option<string>,
    price: Option<int>,
    salePrice: Option<int>,
    discount: Option<int>,
    isOnSale: Option<bool>,
    isPopular: Option<bool>,
    isBestSeller: Option<bool>,
    isFlashSale: Option<bool>,
    stock: Option<int>,
    maxOrderQuantity: Option<int>,
    isOutOfStock: Option<bool>,
    tags: Option<seq<string>>,
    ratings: Option<real>,
    numOfReviews: Option<int>,
    reviews: Option<seq<Review>>,
    user: Option<Id>)

  /** A body that sends no field. */
  const EmptyPatch: ProductPatch := ProductPatch(
    None, None, None, None, None, None, None, None, None, None, None, None, None, None, None,
    None, None, None, None)

  /** The body sends none of the fields the review operations maintain, nor the owner. */
  predicate KeepsReviewFields(body: ProductPatch)
  {
    body.ratings.None? && body.numOfReviews.None? && body.reviews.None? && body.user.None?
  }

  function Pick<T>(sent: Option<T>, stored: T): T
  {
    if sent.Some? then sent.value else stored
  }

  /** The body after the discount block: with both prices sent (and non-zero), discount and
      isOnSale are derived from them, overriding whatever the body said. */
  function WithDerivedDiscount(body: ProductPatch): (r: ProductPatch)
    ensures NumTruthy(body.salePrice) && NumTruthy(body.price) ==>
      && r.discount == Some(Discount(body.price.value, body.salePrice.value))
      && r.isOnSale == Some(body.salePrice.value < body.price.value)
    ensures !(NumTruthy(body.salePrice) && NumTruthy(body.price)) ==> r == body
    ensures r == body.(discount := r.discount, isOnSale := r.isOnSale)
  {
    if NumTruthy(body.salePrice) && NumTruthy(body.price) then
      body.(discount := Some(Discount(body.price.value, body.salePrice.value)),
            isOnSale := Some(body.salePrice.value < body.price.value))
    else body
  }

  /** `findByIdAndUpdate(id, body)`: every field the body sends replaces the stored one;
      `images` are the uploads of the body's images, kept only when there are some. */
  function Patched(p: Product, body: ProductPatch, images: seq<Image>): (r: Product)
    ensures body == EmptyPatch && images == [] ==> r == p
    ensures KeepsReviewFields(body) ==>
      r.reviews == p.reviews && r.numOfReviews == p.numOfReviews && r.ratings == p.ratings && r.user == p.user
    ensures body.salePrice.Some? ==> r.salePrice == body.salePrice
    ensures body.stock.Some? ==> r.stock == body.stock.value
    ensures images != [] ==> r.images == images
  {
    Product(
      Pick(body.name, p.name), Pick(body.description, p.description), Pick(body.brand, p.brand),
      Pick(body.category, p.category), Pick(body.price, p.price),
      if body.salePrice.Some? then body.salePrice else p.salePrice,
      Pick(body.discount, p.discount), Pick(body.isOnSale, p.isOnSale),
      Pick(body.isPopular, p.isPopular), Pick(body.isBestSeller, p.isBestSeller),
      Pick(body.isFlashSale, p.isFlashSale),
      if |images| > 0 then images else p.images,
      Pick(body.stock, p.stock), Pick(body.maxOrderQuantity, p.maxOrderQuantity),
      Pick(body.isOutOfStock, p.isOutOfStock), Pick(body.tags, p.tags),
      Pick(body.ratings, p.ratings), Pick(body.numOfReviews, p.numOfReviews),
      Pick(body.reviews, p.reviews), Pick(body.user, p.user))
  }

  /** updateProduct: a missing product is a 404 ("Product Not Found"). */
  method UpdateProduct(db: Db, id: Id, body: ProductPatch, images: seq<Image>) returns (r: Result<Product>)
    requires db.Valid()
    modifies db`products
    ensures db.Valid()
    ensures id !in old(db.products) ==>
      r == Fail(HttpError(404, ProductNotFoundCapitalized)) && db.products == old(db.products)
    ensures id in old(db.products) ==>
      r == Ok(Patched(old(db.products)[id], WithDerivedDiscount(body), images)) &&
      db.products == old(db.products)[id := r.value]
  {
    if id !in db.products {
      return Fail(HttpError(404, ProductNotFoundCapitalized));
    }
    var sent := body;
    if NumTruthy(sent.salePrice) && NumTruthy(sent.price) {
      sent := sent.(discount := Some(Discount(sent.price.value, sent.salePrice.value)));
      sent := sent.(isOnSale := Some(sent.salePrice.value < sent.price.value));
    }
    var p := Patched(db.products[id], sent, images);
    db.products := db.products[id := p];
    r := Ok(p);
  }

  /** With both prices sent, the updated product's discount and sale flag follow from them;
      with a sale price below the price its sale fields are consistent. A body that sends no
      review field and no owner leaves the reviews, their count, the rating and the owner. */
  lemma UpdateDerivesDiscount(p: Product, body: ProductPatch, images: seq<Image>)
    requires NumTruthy(body.salePrice) && NumTruthy(body.price)
    ensures var q := Patched(p, WithDerivedDiscount(body), images);
      && q.price == body.price.value && q.salePrice == body.salePrice
      && q.discount == Discount(body.price.value, body.salePrice.value)
      && (q.isOnSale <==> body.salePrice.value < body.price.value)
      && (body.salePrice.value < body.price.value ==> SaleConsistent(q))
      && (KeepsReviewFields(body) ==>
            q.reviews == p.reviews && q.numOfReviews == p.numOfReviews && q.ratings == p.ratings &&
            q.user == p.user)
  {
  }

  /** The body may send the review count itself, so an update can leave a count that is not the
      length of the review list. */
  lemma UpdateCanBreakReviewCount(p: Product)
    requires p.reviews == [] && p.numOfReviews == 0
    ensures var q := Patched(p, WithDerivedDiscount(EmptyPatch.(numOfReviews := Some(99))), []);
      q.numOfReviews == 99 && q.reviews == [] && q.numOfReviews != |q.reviews|
  {
  }

  /** Sending only a new sale price leaves the stored discount and sale flag as they were, so
      an update can leave a product on sale with a discount its prices do not imply. */
  lemma UpdateWithSalePriceOnlyKeepsStaleDiscount(p: Product)
    requires p.price == 100 && p.salePrice == Some(80) && p.discount == 20 && p.isOnSale
    ensures SaleConsistent(p)
    ensures var body := EmptyPatch.(salePrice := Some(50));
      var q := Patched(p, WithDerivedDiscount(body), []);
      q.salePrice == Some(50) && q.discount == 20 && !SaleConsistent(q)
  {
    assert Discount(100, 80) == 20;
    assert Discount(100, 50) == 50;
  }

  /** Sending a stock of 0 does not set the out-of-stock flag: updateProduct does not keep the
      flag in step with the stock the way order creation does. */
  lemma UpdateStockLeavesFlag(p: Product)
    requires p.stock == 3 && !p.isOutOfStock
    ensures StockFlagAgrees(p)
    ensures var body := EmptyPatch.(stock := Some(0));
      !StockFlagAgrees(Patched(p, WithDerivedDiscount(body), []))
  {
  }

  /** getSingleProduct. */
  function GetSingleProduct(products: map<Id, Product>, id: Id): (r: Result<Product>)
    ensures r.Ok? <==> id in products
    ensures r.Ok? ==> r.value == products[id]
    ensures r.Fail? ==> r.failure == HttpError(404, ProductNotFoundCapitalized)
  {
    if id in products then Ok(products[id]) else Fail(HttpError(404, ProductNotFoundCapitalized))
  }

  /** deleteProduct: a missing product is a 404; afterwards the product is gone and every other
      product is as it was. */
  method DeleteProduct(db: Db, id: Id) returns (r: Result<()>)
    requires db.Valid()
    modifies db`products
    ensures db.Valid()
    ensures id !in old(db.products) ==>
      r == Fail(HttpError(404, ProductNotFoundCapitalized)) && db.products == old(db.products)
    ensures id in old(db.products) ==> r == Ok(()) && db.products == old(db.products) - {id}
    ensures GetSingleProduct(db.products, id).Fail?
    ensures forall other :: other != id ==> GetSingleProduct(db.products, other) == GetSingleProduct(old(db.products), other)
  {
    if id !in db.products {
      return Fail(HttpError(404, ProductNotFoundCapitalized));
    }
    db.products := db.products - {id};
    r := Ok(());
  }

  // ---- reviews ------------------------------------------------------------------------------

  function RatingOf(r: Review): int
  {
    r.rating
  }

  function SumRatings(reviews: seq<Review>): int
  {
    SumOf(reviews, RatingOf)
  }

  /** The average rating, exact; 0 for no reviews. */
  function MeanRating(reviews: seq<Review>): (r: real)
    ensures reviews == [] ==> r == 0.0
    ensures reviews != [] ==> r * |reviews| as real == SumRatings(reviews) as real
  {
    if reviews == [] then 0.0 else SumRatings(reviews) as real / |reviews| as real
  }

  /** The average of ratings between `lo` and `hi` lies between them too. */
  lemma MeanRatingBounds(reviews: seq<Review>, lo: int, hi: int)
    requires reviews != []
    requires forall i :: 0 <= i < |reviews| ==> lo <= reviews[i].rating <= hi
    ensures lo as real <= MeanRating(reviews) <= hi as real
  {
    SumOfBounds(reviews, RatingOf, lo, hi);
    CastProduct(|reviews|, lo);
    CastProduct(|reviews|, hi);
    QuotientBounds(SumRatings(reviews) as real, |reviews| as real, lo as real, hi as real);
  }

  /** Multiplying integers and then converting agrees with converting and then multiplying. */
  lemma {:induction false} CastProduct(n: nat, x: int)
    ensures (n * x) as real == n as real * x as real
  {
    if n > 0 {
      CastProduct(n - 1, x);
      assert n * x == (n - 1) * x + x;
    }
  }

  lemma QuotientBounds(total: real, n: real, lo: real, hi: real)
    requires n > 0.0 && n * lo <= total <= n * hi
    ensures lo <= total / n <= hi
  {
    var q := total / n;
    assert q * n == total;
  }

  function ReviewBy(user: Id): Review -> bool
  {
    (r: Review) => r.user == user
  }

  /** The reviews after createReviewForProduct's forEach: every review by `user` takes the new
      rating and comment; ids, authors and every other review stay. */
  function Rewritten(reviews: seq<Review>, user: Id, rating: int, comment: string): (r: seq<Review>)
    ensures |r| == |reviews|
    ensures forall i :: 0 <= i < |reviews| ==> r[i].user == reviews[i].user && r[i].id == reviews[i].id
    ensures forall i :: 0 <= i < |reviews| && reviews[i].user == user ==>
      r[i].rating == rating && r[i].comment == comment && r[i].name == reviews[i].name
    ensures forall i :: 0 <= i < |reviews| && reviews[i].user != user ==> r[i] == reviews[i]
  {
    seq(|reviews|, i requires 0 <= i < |reviews| =>
      if reviews[i].user == user then reviews[i].(rating := rating, comment := comment) else reviews[i])
  }

  /** The forEach itself. */
  method RewriteReviewsBy(reviews: seq<Review>, user: Id, rating: int, comment: string)
    returns (updated: seq<Review>)
    ensures updated == Rewritten(reviews, user, rating, comment)
  {
    updated := reviews;
    var i := 0;
    while i < |updated|
      invariant 0 <= i <= |updated| == |reviews|
      invariant forall j :: 0 <= j < i ==> updated[j] == Rewritten(reviews, user, rating, comment)[j]
      invariant forall j :: i <= j < |updated| ==> updated[j] == reviews[j]
    {
      if updated[i].user == user {
        updated := updated[i := updated[i].(rating := rating, comment := comment)];
      }
      i := i + 1;
    }
  }

  /** The review list after an upsert by `user`: rewritten when the user has reviewed the
      product, otherwise extended by a new review with id `newId`. */
  function Upserted(reviews: seq<Review>, user: Id, name: string, rating: int, comment: string, newId: Id)
    : (r: seq<Review>)
    ensures FindFirst(reviews, ReviewBy(user)).Some? ==> |r| == |reviews|
    ensures FindFirst(reviews, ReviewBy(user)).None? ==>
      |r| == |reviews| + 1 && r[..|reviews|] == reviews && r[|reviews|] == Review(newId, user, name, rating, comment)
  {
    if FindFirst(reviews, ReviewBy(user)).Some? then Rewritten(reviews, user, rating, comment)
    else reviews + [Review(newId, user, name, rating, comment)]
  }

  /** An upsert adds a review only for a user without one, keeps one review per user, and
      leaves the user with a review carrying the new rating and comment. */
  lemma UpsertedProperties(reviews: seq<Review>, user: Id, name: string, rating: int, comment: string, newId: Id)
    ensures var r := Upserted(reviews, user, name, rating, comment, newId);
      && |r| == |reviews| + (if FindFirst(reviews, ReviewBy(user)).Some? then 0 else 1)
      && (OneReviewPerUser(reviews) ==> OneReviewPerUser(r))
      && (exists i :: 0 <= i < |r| && r[i].user == user && r[i].rating == rating && r[i].comment == comment)
  {
    var r := Upserted(reviews, user, name, rating, comment, newId);
    var found := FindFirst(reviews, ReviewBy(user));
    if found.Some? {
      var k := found.value;
      assert r[k].user == user && r[k].rating == rating && r[k].comment == comment;
    } else {
      assert r[|reviews|].user == user && r[|reviews|].rating == rating && r[|reviews|].comment == comment;
      if OneReviewPerUser(reviews) {
        forall i, j | 0 <= i < j < |r| ensures r[i].user != r[j].user {
          if j == |reviews| {
            assert !ReviewBy(user)(reviews[i]);
          }
        }
      }
    }
  }

  /** The product with a new review list: the count is its length and the rating its mean. */
  function WithReviews(p: Product, reviews: seq<Review>): (r: Product)
    ensures r.reviews == reviews && r.numOfReviews == |reviews| && r.ratings == MeanRating(reviews)
    ensures r == p.(reviews := r.reviews, numOfReviews := r.numOfReviews, ratings := r.ratings)
  {
    p.(reviews := reviews, numOfReviews := |reviews|, ratings := MeanRating(reviews))
  }

  /** createReviewForProduct: a missing product is a 400; otherwise the requester's review is
      upserted, and a new review takes a fresh id. */
  method CreateReviewForProduct(
    db: Db, requester: Id, requesterName: string, productId: Id, rating: int, comment: string)
    returns (r: Result<Product>)
    requires db.Valid()
    modifies db`products, db`nextId
    ensures db.Valid()
    ensures productId !in old(db.products) ==>
      r == Fail(HttpError(400, ProductNotFound)) && db.products == old(db.products)
    ensures productId in old(db.products) ==>
      var p := old(db.products)[productId];
      && r == Ok(WithReviews(p, Upserted(p.reviews, requester, requesterName, rating, comment, old(db.nextId))))
      && db.products == old(db.products)[productId := r.value]
    ensures db.nextId == old(db.nextId) +
      (if productId in old(db.products) && FindFirst(old(db.products)[productId].reviews, ReviewBy(requester)).None?
       then 1 else 0)
  {
    if productId !in db.products {
      return Fail(HttpError(400, ProductNotFound));
    }
    var p := db.products[productId];
    var reviews: seq<Review>;
    if FindFirst(p.reviews, ReviewBy(requester)).Some? {
      reviews := RewriteReviewsBy(p.reviews, requester, rating, comment);
    } else {
      reviews := p.reviews + [Review(db.nextId, requester, requesterName, rating, comment)];
      db.nextId := db.nextId + 1;
    }
    p := p.(reviews := reviews);
    p := p.(numOfReviews := |reviews|);
    p := p.(ratings := MeanRating(reviews));
    db.products := db.products[productId := p];
    r := Ok(p);
  }

  /** getProductReviews: a missing product is a 400. */
  function GetProductReviews(products: map<Id, Product>, id: Id): (r: Result<seq<Review>>)
    ensures r.Ok? <==> id in products
    ensures r.Ok? ==> r.value == products[id].reviews
    ensures r.Fail? ==> r.failure == HttpError(400, ProductNotFound)
  {
    if id in products then Ok(products[id].reviews) else Fail(HttpError(400, ProductNotFound))
  }

  function ReviewNotId(reviewId: Id): Review -> bool
  {
    (r: Review) => r.id != reviewId
  }

  function ReviewUser(r: Review): Id
  {
    r.user
  }

  lemma FilterKeepsOneReviewPerUser(reviews: seq<Review>, p: Review -> bool)
    requires OneReviewPerUser(reviews)
    ensures OneReviewPerUser(Filter(reviews, p))
  {
    assert DistinctBy(reviews, ReviewUser) by {
      forall i, j | 0 <= i < j < |reviews| ensures ReviewUser(reviews[i]) != ReviewUser(reviews[j]) {
      }
    }
    FilterKeepsDistinctBy(reviews, p, ReviewUser);
    var r := Filter(reviews, p);
    forall i, j | 0 <= i < j < |r| ensures r[i].user != r[j].user {
      assert ReviewUser(r[i]) != ReviewUser(r[j]);
    }
  }

  /** The reviews deleteReview keeps: exactly those with another id, in order. */
  function WithoutReview(reviews: seq<Review>, reviewId: Id): (r: seq<Review>)
    ensures forall i :: 0 <= i < |r| ==> r[i].id != reviewId && r[i] in reviews
    ensures forall i :: 0 <= i < |reviews| && reviews[i].id != reviewId ==> reviews[i] in r
    ensures OneReviewPerUser(reviews) ==> OneReviewPerUser(r)
  {
    var r := Filter(reviews, ReviewNotId(reviewId));
    assert forall i :: 0 <= i < |r| ==> ReviewNotId(reviewId)(r[i]);
    FilterOneReviewPerUser(reviews, reviewId);
    r
  }

  lemma FilterOneReviewPerUser(reviews: seq<Review>, reviewId: Id)
    ensures OneReviewPerUser(reviews) ==> OneReviewPerUser(Filter(reviews, ReviewNotId(reviewId)))
  {
    if OneReviewPerUser(reviews) {
      FilterKeepsOneReviewPerUser(reviews, ReviewNotId(reviewId));
    }
  }

  /** deleteReview: a missing product is a 400. Exactly the reviews with that id go; the count
      is the new length and the rating the new mean, 0 once no review is left. */
  method DeleteReview(db: Db, productId: Id, reviewId: Id) returns (r: Result<Product>)
    requires db.Valid()
    modifies db`products
    ensures db.Valid()
    ensures productId !in old(db.products) ==>
      r == Fail(HttpError(400, ProductNotFound)) && db.products == old(db.products)
    ensures productId in old(db.products) ==>
      var p := old(db.products)[productId];
      && r == Ok(WithReviews(p, WithoutReview(p.reviews, reviewId)))
      && db.products == old(db.products)[productId := r.value]
  {
    if productId !in db.products {
      return Fail(HttpError(400, ProductNotFound));
    }
    var p := db.products[productId];
    var reviews := WithoutReview(p.reviews, reviewId);
    p := p.(reviews := reviews);
    p := p.(numOfReviews := |reviews|);
    p := p.(ratings := if |reviews| > 0 then SumRatings(reviews) as real / |reviews| as real else 0.0);
    db.products := db.products[productId := p];
    r := Ok(p);
  }

  // ---- product creation ---------------------------------------------------------------------

  /** An uploaded file; its content is opaque to the model. */
  datatype UploadedFile = UploadedFile(mimetype: string, content: string)

  predicate IsImage(f: UploadedFile)
  {
    StartsWith(f.mimetype, "image")
  }

  /** A file the upload loop stops at: not an image, or an upload that fails. */
  function IsRejected(upload: UploadedFile -> Option<Image>): UploadedFile -> bool
  {
    (f: UploadedFile) => !IsImage(f) || upload(f).None?
  }

  /** The images of createProduct's upload loop, taken file by file: the first file that is not
      an image is a 400, the first upload that fails a 500. `upload` stands for the image host. */
  function UploadImages(files: seq<UploadedFile>, upload: UploadedFile -> Option<Image>)
    : (r: Result<seq<Image>>)
    ensures r.Fail? ==>
      r.failure == HttpError(400, OnlyImagesAllowed) || r.failure == HttpError(500, ImageUploadFailed)
  {
    if files == [] then Ok([])
    else if !IsImage(files[0]) then Fail(HttpError(400, OnlyImagesAllowed))
    else match upload(files[0])
      case None => Fail(HttpError(500, ImageUploadFailed))
      case Some(img) =>
        match UploadImages(files[1..], upload)
        case Fail(f) => Fail(f)
        case Ok(rest) => Ok([img] + rest)
  }

  /** The upload succeeds exactly when no file is rejected, and then yields one image per file,
      in order; otherwise the first rejected file decides the error. */
  lemma {:induction false} UploadImagesMeaning(files: seq<UploadedFile>, upload: UploadedFile -> Option<Image>)
    ensures var r := UploadImages(files, upload);
      && (r.Ok? <==> FindFirst(files, IsRejected(upload)).None?)
      && (r.Ok? ==> |r.value| == |files| && forall i :: 0 <= i < |files| ==> upload(files[i]) == Some(r.value[i]))
      && (r.Fail? ==>
            var k := FindFirst(files, IsRejected(upload)).value;
            r.failure == if !IsImage(files[k]) then HttpError(400, OnlyImagesAllowed)
                         else HttpError(500, ImageUploadFailed))
  {
    if files != [] && !IsRejected(upload)(files[0]) {
      UploadImagesMeaning(files[1..], upload);
      var rest := UploadImages(files[1..], upload);
      if rest.Ok? {
        var r := UploadImages(files, upload);
        forall i | 0 <= i < |files| ensures upload(files[i]) == Some(r.value[i]) {
          if i > 0 {
            assert files[i] == files[1..][i - 1];
          }
        }
      }
    }
  }

  /** The links gathered so far put in front of what the remaining files give. */
  function Prepend(links: seq<Image>, rest: Result<seq<Image>>): Result<seq<Image>>
  {
    if rest.Ok? then Ok(links + rest.value) else rest
  }

  /** createProduct's loop over the uploaded files. */
  method UploadFiles(files: seq<UploadedFile>, upload: UploadedFile -> Option<Image>)
    returns (r: Result<seq<Image>>)
    ensures r == UploadImages(files, upload)
  {
    var links: seq<Image> := [];
    var i := 0;
    UploadStart(files, upload);
    while i < |files|
      invariant 0 <= i <= |files|
      invariant UploadImages(files, upload) == Prepend(links, UploadImages(files[i..], upload))
    {
      UploadHead(files[i..], upload);
      if !IsImage(files[i]) {
        return Fail(HttpError(400, OnlyImagesAllowed));
      }
      var uploaded := upload(files[i]);
      if uploaded.None? {
        return Fail(HttpError(500, ImageUploadFailed));
      }
      UploadStep(files, upload, i, links, uploaded.value);
      links := links + [uploaded.value];
      i := i + 1;
    }
    assert files[i..] == [];
    assert links + [] == links;
    r := Ok(links);
  }

  lemma UploadStart(files: seq<UploadedFile>, upload: UploadedFile -> Option<Image>)
    ensures UploadImages(files, upload) == Prepend([], UploadImages(files[0..], upload))
  {
    assert files[0..] == files;
    var whole := UploadImages(files, upload);
    if whole.Ok? {
      assert [] + whole.value == whole.value;
    }
  }

  /** What the first of the remaining files decides. */
  lemma UploadHead(rest: seq<UploadedFile>, upload: UploadedFile -> Option<Image>)
    requires rest != []
    ensures !IsImage(rest[0]) ==> UploadImages(rest, upload) == Fail(HttpError(400, OnlyImagesAllowed))
    ensures IsImage(rest[0]) && upload(rest[0]).None? ==>
      UploadImages(rest, upload) == Fail(HttpError(500, ImageUploadFailed))
  {
  }

  lemma UploadStep(
    files: seq<UploadedFile>, upload: UploadedFile -> Option<Image>, i: nat, links: seq<Image>, img: Image)
    requires i < |files| && IsImage(files[i]) && upload(files[i]) == Some(img)
    requires UploadImages(files, upload) == Prepend(links, UploadImages(files[i..], upload))
    ensures UploadImages(files, upload) == Prepend(links + [img], UploadImages(files[i + 1..], upload))
  {
    assert files[i..][1..] == files[i + 1..];
    var tail := UploadImages(files[i + 1..], upload);
    assert UploadImages(files[i..], upload) == Prepend([img], tail);
    if tail.Ok? {
      assert links + ([img] + tail.value) == (links + [img]) + tail.value;
    }
  }

  /** createProduct. `body` is the request body with the schema defaults applied; its images
      become the uploads and its owner the requester when there is one. */
  method CreateProduct(
    db: Db, requester: Option<Id>, body: Product, files: seq<UploadedFile>,
    upload: UploadedFile -> Option<Image>)
    returns (r: Result<Id>)
    requires db.Valid()
    modifies db`products, db`nextId
    ensures db.Valid()
    ensures UploadImages(files, upload).Fail? ==>
      r == Fail(UploadImages(files, upload).failure) && db.products == old(db.products)
    ensures UploadImages(files, upload).Ok? ==>
      var stored := body.(images := UploadImages(files, upload).value,
                          user := if requester.Some? then requester.value else body.user);
      && (!ProductComplete(stored) ==>
            r == Fail(SchemaValidation("product")) && db.products == old(db.products))
      && (ProductComplete(stored) ==>
            r == Ok(old(db.nextId)) && old(db.nextId) !in old(db.products) &&
            db.products == old(db.products)[old(db.nextId) := stored])
    ensures db.nextId == old(db.nextId) + (if r.Ok? then 1 else 0)
  {
    var uploaded := UploadFiles(files, upload);
    if uploaded.Fail? {
      return Fail(uploaded.failure);
    }
    var links := uploaded.value;
    var stored := body.(images := links);
    if requester.Some? {
      stored := stored.(user := requester.value);
    }
    if !ProductComplete(stored) {
      return Fail(SchemaValidation("product"));
    }
    var id := StoreNew(db, stored);
    r := Ok(id);
  }

  /** Saves a new product under the next free id. */
  method StoreNew(db: Db, p: Product) returns (id: Id)
    requires db.Valid()
    modifies db`products, db`nextId
    ensures db.Valid()
    ensures id == old(db.nextId) && id !in old(db.products)
    ensures db.products == old(db.products)[id := p] && db.nextId == id + 1
  {
    id := db.nextId;
    db.products := db.products[id := p];
    db.nextId := db.nextId + 1;
  }
}
