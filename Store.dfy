/** The marketplace's tables and the data logic of its request handlers. Each handler is one
    atomic update of the store; the requesting user is passed explicitly. */
module Store {
  import opened Results
  import opened Schema
  import opened Text
  import opened Helpers
  import opened Pricing
  import opened Catalog

  /** What buy_now shows the buyer before payment. */
  datatype Quote = Quote(commission: nat, sellerAmount: nat)

  /** What product_detail shows: the mean rating, the commission and the seller's share. */
  datatype ProductView = ProductView(averageRating: real, commission: nat, sellerAmount: nat)

  /** The reviewer has already reviewed the product. */
  predicate HasReviewed(reviews: seq<Review>, productId: nat, reviewerId: nat) {
    exists k :: 0 <= k < |reviews| && reviews[k].productId == productId && reviews[k].reviewerId == reviewerId
  }

  /** At most one review per (product, reviewer) pair. */
  ghost predicate UniqueReviews(reviews: seq<Review>) {
    forall i, j :: 0 <= i < j < |reviews| ==>
      !(reviews[i].productId == reviews[j].productId && reviews[i].reviewerId == reviews[j].reviewerId)
  }

  /** Appending a review for a pair that has none keeps the pairs unique. */
  lemma AppendFreshReview(reviews: seq<Review>, r: Review)
    requires UniqueReviews(reviews) && !HasReviewed(reviews, r.productId, r.reviewerId)
    ensures UniqueReviews(reviews + [r])
    ensures HasReviewed(reviews + [r], r.productId, r.reviewerId)
  {
    var s := reviews + [r];
    assert s[|reviews|] == r;
    forall i, j | 0 <= i < j < |s|
      ensures !(s[i].productId == s[j].productId && s[i].reviewerId == s[j].reviewerId)
    {
      if j == |reviews| {
        assert s[i] == reviews[i];
      }
    }
  }

  /** What a seller has earned: the seller amounts of the transactions paying them. */
  function Earnings(transactions: seq<Transaction>, sellerId: nat): int {
    if transactions == [] then 0
    else
      var last := transactions[|transactions| - 1];
      Earnings(transactions[..|transactions| - 1], sellerId) + (if last.sellerId == sellerId then last.sellerAmount else 0)
  }

  /** A new transaction adds its seller amount to its seller's earnings and nobody else's. */
  lemma EarningsAppend(transactions: seq<Transaction>, t: Transaction, sellerId: nat)
    ensures Earnings(transactions + [t], sellerId)
            == Earnings(transactions, sellerId) + (if t.sellerId == sellerId then t.sellerAmount else 0)
  {
    assert (transactions + [t])[..|transactions|] == transactions;
  }

  /** Sold flags are never cleared and no product disappears. */
  ghost predicate SoldKept(before: seq<Product>, after: seq<Product>) {
    |before| <= |after| && forall k :: 0 <= k < |before| && before[k].isSold ==> after[k].isSold
  }

  /** Sold flags are never cleared along a run of handlers. */
  lemma SoldKeptTransitive(a: seq<Product>, b: seq<Product>, c: seq<Product>)
    requires SoldKept(a, b) && SoldKept(b, c)
    ensures SoldKept(a, c)
  {
  }

  /** The products with product pid's featured flag flipped. */
  function FlipFeatured(products: seq<Product>, pid: nat): (r: seq<Product>)
    requires pid < |products|
    ensures |r| == |products| && r[pid].isFeatured == !products[pid].isFeatured
    ensures forall k :: 0 <= k < |products| && k != pid ==> r[k] == products[k]
    ensures r[pid] == products[pid].(isFeatured := r[pid].isFeatured)
  {
    products[pid := products[pid].(isFeatured := !products[pid].isFeatured)]
  }

  /** Toggling twice restores the original products. */
  lemma FlipFeaturedTwice(products: seq<Product>, pid: nat)
    requires pid < |products|
    ensures FlipFeatured(FlipFeatured(products, pid), pid) == products
  {
    var once := FlipFeatured(products, pid);
    var twice := FlipFeatured(once, pid);
    assert twice[pid] == products[pid];
    assert forall k :: 0 <= k < |products| ==> twice[k] == products[k];
  }

  /** The upload is stored: it has a file name and an allowed image extension. */
  predicate Accepted(u: Upload) {
    u.filename != "" && AllowedFile(u.filename)
  }

  /** The image rows sell_product adds for the first n uploads. A row is primary when its
      upload is at index 0 of the upload list, skipped uploads included. */
  function ImageRows(productId: nat, uploads: seq<Upload>, n: nat): seq<ProductImage>
    requires n <= |uploads|
  {
    if n == 0 then []
    else
      ImageRows(productId, uploads, n - 1)
      + (if Accepted(uploads[n - 1]) then [ProductImage(productId, uploads[n - 1].storedName, n - 1 == 0)] else [])
  }

  /** How many of the first n uploads are accepted. */
  function AcceptedCount(uploads: seq<Upload>, n: nat): nat
    requires n <= |uploads|
  {
    if n == 0 then 0 else AcceptedCount(uploads, n - 1) + (if Accepted(uploads[n - 1]) then 1 else 0)
  }

  /** One row per accepted upload. */
  lemma {:induction false} ImageRowsCount(productId: nat, uploads: seq<Upload>, n: nat)
    requires n <= |uploads|
    ensures |ImageRows(productId, uploads, n)| == AcceptedCount(uploads, n)
  {
    if n > 0 {
      ImageRowsCount(productId, uploads, n - 1);
    }
  }

  /** Every row belongs to the new product. */
  lemma {:induction false} ImageRowsOfProduct(productId: nat, uploads: seq<Upload>, n: nat)
    requires n <= |uploads|
    ensures forall k :: 0 <= k < |ImageRows(productId, uploads, n)| ==> ImageRows(productId, uploads, n)[k].productId == productId
  {
    if n > 0 {
      ImageRowsOfProduct(productId, uploads, n - 1);
    }
  }

  /** Only the row of upload 0 can be primary, and it is when upload 0 was accepted; so there is
      at most one primary image, and none when upload 0 was rejected. */
  lemma {:induction false} ImageRowsPrimary(productId: nat, uploads: seq<Upload>, n: nat)
    requires n <= |uploads|
    ensures var rows := ImageRows(productId, uploads, n);
      forall k :: 0 <= k < |rows| && rows[k].isPrimary ==> k == 0 && Accepted(uploads[0])
    ensures var rows := ImageRows(productId, uploads, n);
      n > 0 && Accepted(uploads[0]) ==> |rows| > 0 && rows[0].isPrimary
  {
    if n > 0 {
      ImageRowsPrimary(productId, uploads, n - 1);
      var prev := ImageRows(productId, uploads, n - 1);
      var rows := ImageRows(productId, uploads, n);
      assert rows[..|prev|] == prev;
      if n == 1 {
        assert prev == [];
      }
    }
  }

  /** At most one primary image among the rows of one listing. */
  lemma AtMostOnePrimary(productId: nat, uploads: seq<Upload>)
    ensures var rows := ImageRows(productId, uploads, |uploads|);
      forall i, j :: 0 <= i < |rows| && 0 <= j < |rows| && rows[i].isPrimary && rows[j].isPrimary ==> i == j
  {
    ImageRowsPrimary(productId, uploads, |uploads|);
  }

  /** A recorded sale: completed, for a sold product, paid at its price to its seller, and
      split exactly into commission and seller amount. */
  ghost predicate TransactionOk(t: Transaction, users: seq<User>, products: seq<Product>) {
    t.productId < |products| && t.buyerId < |users|
    && var p := products[t.productId];
    p.isSold && t.sellerId == p.userId && t.amount == p.sellingPrice
    && t.commission == Commission(p.sellingPrice, p.category)
    && t.commission + t.sellerAmount == t.amount
    && t.status == Completed
  }

  /** Referential integrity, one review per (product, reviewer), reviews naming the product's
      seller, consistent transactions, and wallet balances equal to accumulated earnings. */
  ghost predicate StoreInvariant(users: seq<User>, products: seq<Product>, images: seq<ProductImage>,
                                 reviews: seq<Review>, searchLogs: seq<SearchLog>, transactions: seq<Transaction>)
  {
    (forall k :: 0 <= k < |products| ==> products[k].userId < |users|)
    && (forall k :: 0 <= k < |images| ==> images[k].productId < |products|)
    && (forall k :: 0 <= k < |reviews| ==>
          reviews[k].productId < |products| && reviews[k].reviewerId < |users|
          && reviews[k].sellerId == products[reviews[k].productId].userId)
    && UniqueReviews(reviews)
    && (forall k :: 0 <= k < |searchLogs| ==>
          searchLogs[k].userId < |users| && searchLogs[k].collegeId == users[searchLogs[k].userId].collegeId)
    && (forall k :: 0 <= k < |transactions| ==> TransactionOk(transactions[k], users, products))
    && (forall u :: 0 <= u < |users| ==> users[u].walletBalance == Earnings(transactions, u))
  }

  /** A new listing by a known seller keeps the invariant. */
  lemma AddListingKeeps(users: seq<User>, products: seq<Product>, images: seq<ProductImage>,
                        reviews: seq<Review>, searchLogs: seq<SearchLog>, transactions: seq<Transaction>,
                        listing: Product)
    requires StoreInvariant(users, products, images, reviews, searchLogs, transactions)
    requires listing.userId < |users|
    ensures StoreInvariant(users, products + [listing], images, reviews, searchLogs, transactions)
  {
    var ps := products + [listing];
    assert forall k :: 0 <= k < |products| ==> ps[k] == products[k];
    forall k | 0 <= k < |transactions| ensures TransactionOk(transactions[k], users, ps) {
      assert TransactionOk(transactions[k], users, products);
    }
  }

  /** New images of known products keep the invariant. */
  lemma AddImagesKeeps(users: seq<User>, products: seq<Product>, images: seq<ProductImage>,
                       reviews: seq<Review>, searchLogs: seq<SearchLog>, transactions: seq<Transaction>,
                       added: seq<ProductImage>)
    requires StoreInvariant(users, products, images, reviews, searchLogs, transactions)
    requires forall k :: 0 <= k < |added| ==> added[k].productId < |products|
    ensures StoreInvariant(users, products, images + added, reviews, searchLogs, transactions)
  {
  }

  /** The rows the image loop of sell_product stages: one per accepted upload, in order,
      primary when its index in the upload list is 0. */
  method StageImages(productId: nat, uploads: seq<Upload>) returns (added: seq<ProductImage>)
    ensures added == ImageRows(productId, uploads, |uploads|)
  {
    added := [];
    var i := 0;
    while i < |uploads|
      invariant 0 <= i <= |uploads|
      invariant added == ImageRows(productId, uploads, i)
    {
      var upload := uploads[i];
      if Accepted(upload) {
        added := added + [ProductImage(productId, upload.storedName, i == 0)];
      }
      i := i + 1;
    }
  }

  /** A search log of a known user, tagged with that user's college, keeps the invariant. */
  lemma LogSearchKeeps(users: seq<User>, products: seq<Product>, images: seq<ProductImage>,
                       reviews: seq<Review>, searchLogs: seq<SearchLog>, transactions: seq<Transaction>,
                       log: SearchLog)
    requires StoreInvariant(users, products, images, reviews, searchLogs, transactions)
    requires log.userId < |users| && log.collegeId == users[log.userId].collegeId
    ensures StoreInvariant(users, products, images, reviews, searchLogs + [log], transactions)
  {
  }

  /** Recording the sale of a known product to a known buyer (product marked sold, seller
      credited with the seller amount) keeps the invariant. */
  lemma RecordSaleKeeps(users: seq<User>, products: seq<Product>, images: seq<ProductImage>,
                        reviews: seq<Review>, searchLogs: seq<SearchLog>, transactions: seq<Transaction>,
                        t: Transaction)
    requires StoreInvariant(users, products, images, reviews, searchLogs, transactions)
    requires t.productId < |products| && t.buyerId < |users| && t.status == Completed
    requires var p := products[t.productId];
      t.sellerId == p.userId && t.amount == p.sellingPrice
      && t.commission == Commission(p.sellingPrice, p.category) && t.sellerAmount == p.sellingPrice - t.commission
    ensures var p := products[t.productId];
      var seller := users[p.userId];
      StoreInvariant(users[p.userId := seller.(walletBalance := seller.walletBalance + t.sellerAmount)],
                     products[t.productId := p.(isSold := true)],
                     images, reviews, searchLogs, transactions + [t])
  {
    var p := products[t.productId];
    var seller := users[p.userId];
    var us := users[p.userId := seller.(walletBalance := seller.walletBalance + t.sellerAmount)];
    var ps := products[t.productId := p.(isSold := true)];
    var ts := transactions + [t];
    forall u | 0 <= u < |us| ensures us[u].walletBalance == Earnings(ts, u) {
      EarningsAppend(transactions, t, u);
    }
    forall k | 0 <= k < |ts| ensures TransactionOk(ts[k], us, ps) {
      if k < |transactions| {
        assert ts[k] == transactions[k];
        assert TransactionOk(transactions[k], users, products);
      }
    }
  }

  /** The tables of the marketplace. */
  class Marketplace {
    var users: seq<User>
    var products: seq<Product>
    var images: seq<ProductImage>
    var reviews: seq<Review>
    var searchLogs: seq<SearchLog>
    var transactions: seq<Transaction>

    /** The store invariant over the current tables. */
    ghost predicate Valid()
      reads this
    {
      StoreInvariant(users, products, images, reviews, searchLogs, transactions)
    }

    /** A store holding the registered users, each with an empty wallet, and nothing else. */
    constructor (registered: seq<User>)
      requires forall u :: 0 <= u < |registered| ==> registered[u].walletBalance == 0
      ensures Valid()
      ensures users == registered && products == [] && images == [] && reviews == []
      ensures searchLogs == [] && transactions == []
    {
      users := registered;
      products := [];
      images := [];
      reviews := [];
      searchLogs := [];
      transactions := [];
    }

    /** search: logs the stripped query when it is non-empty, then returns the catalog the
        requester sees, newest first. */
    method Search(userId: nat, rawQuery: string, category: string, now: int) returns (results: seq<nat>)
      requires Valid() && userId < |users|
      modifies this
      ensures users == old(users) && products == old(products) && images == old(images)
      ensures Valid()
      ensures var query := Strip(rawQuery);
        searchLogs == old(searchLogs) + (if query == [] then [] else [SearchLog(userId, query, users[userId].collegeId, now)])
      ensures reviews == old(reviews) && transactions == old(transactions)
      ensures results == SearchResults(products, users, userId, Strip(rawQuery), category)
    {
      var query := Strip(rawQuery);
      results := SearchResults(products, users, userId, query, category);
      if query != [] {
        var log := SearchLog(userId, query, users[userId].collegeId, now);
        LogSearchKeeps(users, products, images, reviews, searchLogs, transactions, log);
        searchLogs := searchLogs + [log];
      }
    }

    /** buy_now's guards: an unknown product, a sold product, and one's own product are refused,
        in that order; otherwise the buyer is quoted the commission and the seller's share. */
    function CanBuy(productId: nat, userId: nat): (r: Result<Quote>)
      reads this
      requires userId < |users|
      ensures r == Err(NotFound) <==> productId >= |products|
      ensures r == Err(AlreadySold) <==> productId < |products| && products[productId].isSold
      ensures r == Err(OwnProduct) <==>
        productId < |products| && !products[productId].isSold && products[productId].userId == userId
      ensures r.Ok? <==>
        productId < |products| && !products[productId].isSold && products[productId].userId != userId
      ensures r.Ok? ==>
        productId < |products| && r.value.commission + r.value.sellerAmount == products[productId].sellingPrice
        && r.value.commission == Commission(products[productId].sellingPrice, products[productId].category)
    {
      if productId >= |products| then Err(NotFound)
      else
        var p := products[productId];
        if p.isSold then Err(AlreadySold)
        else if p.userId == userId then Err(OwnProduct)
        else Ok(Quote(Commission(p.sellingPrice, p.category), SellerAmount(p.sellingPrice, p.category)))
    }

    /** process_payment: records a completed transaction at the selling price, marks the product
        sold and credits the seller's wallet with the seller amount. It does not check whether
        the product is already sold or is the buyer's own. */
    method ProcessPayment(productId: nat, buyerId: nat, paymentId: Option<string>) returns (r: Result<Transaction>)
      requires Valid() && buyerId < |users|
      modifies this
      ensures Valid()
      ensures SoldKept(old(products), products)
      ensures productId >= old(|products|) ==> r == Err(NotFound) && unchanged(this)
      ensures productId < old(|products|) ==>
        var p := old(products[productId]);
        var seller := old(users[p.userId]);
        var c := Commission(p.sellingPrice, p.category);
        var t := Transaction(productId, buyerId, p.userId, p.sellingPrice, c, p.sellingPrice - c, paymentId, Completed);
        r == Ok(t)
        && transactions == old(transactions) + [t]
        && products == old(products)[productId := p.(isSold := true)]
        && users == old(users)[p.userId := seller.(walletBalance := seller.walletBalance + t.sellerAmount)]
        && images == old(images) && reviews == old(reviews) && searchLogs == old(searchLogs)
      ensures r.Ok? ==> forall u :: 0 <= u < |users| ==> CanBuy(productId, u) == Err(AlreadySold)
    {
      if productId >= |products| {
        return Err(NotFound);
      }
      var p := products[productId];
      var commission := Commission(p.sellingPrice, p.category);
      var sellerAmount := p.sellingPrice - commission;
      var t := Transaction(productId, buyerId, p.userId, p.sellingPrice, commission, sellerAmount, paymentId, Completed);
      RecordSaleKeeps(users, products, images, reviews, searchLogs, transactions, t);
      products := products[productId := p.(isSold := true)];
      var seller := users[p.userId];
      users := users[p.userId := seller.(walletBalance := seller.walletBalance + sellerAmount)];
      transactions := transactions + [t];
      r := Ok(t);
    }

    /** add_review: a second review of a product by the same reviewer changes nothing;
        otherwise one review is appended, its seller copied from the product's owner. */
    method AddReview(productId: nat, userId: nat, rating: int, comment: string) returns (r: Result<Review>)
      requires Valid() && userId < |users|
      modifies this
      ensures Valid()
      ensures productId >= old(|products|) ==> r == Err(NotFound) && unchanged(this)
      ensures productId < old(|products|) && old(HasReviewed(reviews, productId, userId)) ==>
        r == Err(AlreadyReviewed) && unchanged(this)
      ensures productId < old(|products|) && !old(HasReviewed(reviews, productId, userId)) ==>
        var review := Review(productId, userId, old(products[productId].userId), rating, comment);
        r == Ok(review) && reviews == old(reviews) + [review]
      ensures users == old(users) && products == old(products) && images == old(images)
      ensures searchLogs == old(searchLogs) && transactions == old(transactions)
      ensures productId < |products| ==> HasReviewed(reviews, productId, userId)
    {
      if productId >= |products| {
        return Err(NotFound);
      }
      if HasReviewed(reviews, productId, userId) {
        return Err(AlreadyReviewed);
      }
      var review := Review(productId, userId, products[productId].userId, rating, comment);
      AppendFreshReview(reviews, review);
      reviews := reviews + [review];
      r := Ok(review);
    }

    /** product_detail: a viewer from another college is refused; otherwise the view counter
        goes up by one and the average rating of the product's reviews is shown (0 when it has
        none), with the commission and the seller's share of its price. */
    method ViewProduct(productId: nat, userId: nat) returns (r: Result<ProductView>)
      requires Valid() && userId < |users|
      modifies this
      ensures Valid()
      ensures SoldKept(old(products), products)
      ensures productId >= old(|products|) ==> r == Err(NotFound) && unchanged(this)
      ensures productId < old(|products|) && old(users[products[productId].userId].collegeId != users[userId].collegeId) ==>
        r == Err(OtherCollege) && unchanged(this)
      ensures productId < old(|products|) && old(users[products[productId].userId].collegeId == users[userId].collegeId) ==>
        var p := old(products[productId]);
        products == old(products)[productId := p.(viewCount := p.viewCount + 1)]
        && r == Ok(ProductView(AverageRating(ProductRatings(reviews, productId)),
                               Commission(p.sellingPrice, p.category), SellerAmount(p.sellingPrice, p.category)))
      ensures users == old(users) && images == old(images) && reviews == old(reviews)
      ensures searchLogs == old(searchLogs) && transactions == old(transactions)
    {
      if productId >= |products| {
        return Err(NotFound);
      }
      var p := products[productId];
      if users[p.userId].collegeId != users[userId].collegeId {
        return Err(OtherCollege);
      }
      var average := AverageRating(ProductRatings(reviews, productId));
      products := products[productId := p.(viewCount := p.viewCount + 1)];
      r := Ok(ProductView(average, Commission(p.sellingPrice, p.category), SellerAmount(p.sellingPrice, p.category)));
    }

    /** toggle_featured: a non-admin is refused before the product is looked up; for an admin
        only that product's featured flag flips. The new flag is returned. */
    method ToggleFeatured(userId: nat, productId: nat) returns (r: Result<bool>)
      requires Valid() && userId < |users|
      modifies this
      ensures Valid()
      ensures SoldKept(old(products), products)
      ensures !old(users[userId].isAdmin) ==> r == Err(AccessDenied) && unchanged(this)
      ensures old(users[userId].isAdmin) && productId >= old(|products|) ==> r == Err(NotFound) && unchanged(this)
      ensures old(users[userId].isAdmin) && productId < old(|products|) ==>
        products == FlipFeatured(old(products), productId) && r == Ok(products[productId].isFeatured)
      ensures users == old(users) && images == old(images) && reviews == old(reviews)
      ensures searchLogs == old(searchLogs) && transactions == old(transactions)
    {
      if !users[userId].isAdmin {
        return Err(AccessDenied);
      }
      if productId >= |products| {
        return Err(NotFound);
      }
      products := FlipFeatured(products, productId);
      r := Ok(products[productId].isFeatured);
    }

    /** The image loop of sell_product: for each upload, in order, an accepted one gets a row,
        primary when its index in the upload list is 0. The rows are staged, then added. */
    method AddImages(productId: nat, uploads: seq<Upload>)
      requires Valid() && productId < |products|
      modifies this
      ensures Valid()
      ensures images == old(images) + ImageRows(productId, uploads, |uploads|)
      ensures users == old(users) && products == old(products) && reviews == old(reviews)
      ensures searchLogs == old(searchLogs) && transactions == old(transactions)
    {
      var added := StageImages(productId, uploads);
      ImageRowsOfProduct(productId, uploads, |uploads|);
      AddImagesKeeps(users, products, images, reviews, searchLogs, transactions, added);
      images := images + added;
    }

    /** sell_product: a selling price of zero fails (the rate snapshot divides by it) and
        nothing is stored; otherwise a new unsold, unfeatured, unviewed listing is added with
        its commission-rate snapshot, followed by one image row per accepted upload. */
    method SellProduct(userId: nat, title: string, description: string, category: string, brand: string,
                       condition: string, originalPrice: Option<nat>, sellingPrice: nat,
                       uploads: seq<Upload>, now: int)
      returns (r: Result<nat>)
      requires Valid() && userId < |users|
      modifies this
      ensures Valid()
      ensures SoldKept(old(products), products)
      ensures sellingPrice == 0 ==> r == Err(ZeroPrice) && unchanged(this)
      ensures sellingPrice > 0 ==>
        var rate := (Commission(sellingPrice, category) as real) / (sellingPrice as real);
        var listing := Product(title, Some(description), category, Some(brand), condition, originalPrice,
                               sellingPrice, rate, userId, false, false, 0, now);
        r == Ok(old(|products|))
        && products == old(products) + [listing]
        && images == old(images) + ImageRows(old(|products|), uploads, |uploads|)
      ensures users == old(users) && reviews == old(reviews)
      ensures searchLogs == old(searchLogs) && transactions == old(transactions)
    {
      if sellingPrice == 0 {
        return Err(ZeroPrice);
      }
      var rate := (Commission(sellingPrice, category) as real) / (sellingPrice as real);
      var productId := |products|;
      var listing := Product(title, Some(description), category, Some(brand), condition, originalPrice,
                             sellingPrice, rate, userId, false, false, 0, now);
      AddListingKeeps(users, products, images, reviews, searchLogs, transactions, listing);
      products := products + [listing];
      AddImages(productId, uploads);
      r := Ok(productId);
    }
  }
}
