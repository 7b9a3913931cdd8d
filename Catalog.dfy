/** The read-only queries over the tables: the college-scoped catalog search and the
    average rating of a product. */
module Catalog {
  import opened Schema
  import opened Text
  import opened Sorting

  /** The free-text filter: the query occurs in the title, the description or the brand.
      A NULL description or brand matches nothing. */
  predicate MatchesQuery(p: Product, query: string) {
    Contains(p.title, query)
    || (p.description.Some? && Contains(p.description.value, query))
    || (p.brand.Some? && Contains(p.brand.value, query))
  }

  /** Product id is in the catalog the requester sees for this query and category: its seller
      is of the requester's college, it is unsold, it is not the requester's own, and it passes
      the text and category filters, each of which applies only when non-empty. */
  predicate Listed(products: seq<Product>, users: seq<User>, requesterId: nat,
                   query: string, category: string, id: nat)
  {
    id < |products| && requesterId < |users|
    && var p := products[id];
    p.userId < |users|
    && users[p.userId].collegeId == users[requesterId].collegeId
    && !p.isSold
    && p.userId != requesterId
    && (query == [] || MatchesQuery(p, query))
    && (category == [] || p.category == category)
  }

  /** The ids below n that are listed, in increasing order. */
  function Candidates(products: seq<Product>, users: seq<User>, requesterId: nat,
                      query: string, category: string, n: nat): (ids: seq<nat>)
    requires n <= |products|
    ensures forall id: nat :: id in ids <==> id < n && Listed(products, users, requesterId, query, category, id)
    ensures forall i, j :: 0 <= i < j < |ids| ==> ids[i] < ids[j]
    ensures forall i :: 0 <= i < |ids| ==> ids[i] < n
  {
    if n == 0 then []
    else
      Candidates(products, users, requesterId, query, category, n - 1)
      + (if Listed(products, users, requesterId, query, category, n - 1) then [n - 1] else [])
  }

  /** The sort key of a product id: its creation time. */
  function CreatedAt(products: seq<Product>): nat -> int {
    (id: nat) => if id < |products| then products[id].createdAt else 0
  }

  /** The search results: the listed ids, newest first. */
  function SearchResults(products: seq<Product>, users: seq<User>, requesterId: nat,
                         query: string, category: string): seq<nat>
  {
    SortDesc(Candidates(products, users, requesterId, query, category, |products|), CreatedAt(products))
  }

  /** The results are exactly the listed products, each once. */
  lemma SearchResultsExact(products: seq<Product>, users: seq<User>, requesterId: nat,
                           query: string, category: string)
    ensures var r := SearchResults(products, users, requesterId, query, category);
      forall id: nat :: id in r <==> Listed(products, users, requesterId, query, category, id)
    ensures Distinct(SearchResults(products, users, requesterId, query, category))
  {
    var c := Candidates(products, users, requesterId, query, category, |products|);
    var r := SearchResults(products, users, requesterId, query, category);
    forall id: nat ensures id in r <==> id in c {
      assert id in r <==> id in multiset(r);
    }
    PermutationKeepsDistinct(c, r);
  }

  /** The results are ordered newest first. */
  lemma SearchResultsNewestFirst(products: seq<Product>, users: seq<User>, requesterId: nat,
                                 query: string, category: string)
    ensures var r := SearchResults(products, users, requesterId, query, category);
      forall i :: 0 <= i < |r| ==> r[i] < |products|
    ensures var r := SearchResults(products, users, requesterId, query, category);
      forall i, j :: 0 <= i < j < |r| ==> products[r[i]].createdAt >= products[r[j]].createdAt
  {
    var c := Candidates(products, users, requesterId, query, category, |products|);
    var r := SearchResults(products, users, requesterId, query, category);
    SortDescSorted(c, CreatedAt(products));
    SearchResultsExact(products, users, requesterId, query, category);
    forall i | 0 <= i < |r| ensures r[i] < |products| {
      assert r[i] in r;
    }
    forall i, j | 0 <= i < j < |r| ensures products[r[i]].createdAt >= products[r[j]].createdAt {
      assert CreatedAt(products)(r[i]) >= CreatedAt(products)(r[j]);
    }
  }

  /** The ratings of a product's reviews, in review order. */
  function ProductRatings(reviews: seq<Review>, productId: nat): (ratings: seq<int>)
    ensures |ratings| <= |reviews|
    ensures |ratings| == 0 <==> forall k :: 0 <= k < |reviews| ==> reviews[k].productId != productId
  {
    if reviews == [] then []
    else
      var rest := ProductRatings(reviews[1..], productId);
      assert forall k :: 1 <= k < |reviews| ==> reviews[k] == reviews[1..][k - 1];
      (if reviews[0].productId == productId then [reviews[0].rating] else []) + rest
  }

  /** The indices of the first n reviews that are reviews of the product with rating v. */
  ghost function RatedAt(reviews: seq<Review>, productId: nat, v: int, n: nat): set<nat>
    requires n <= |reviews|
  {
    set k: nat | k < n && reviews[k].productId == productId && reviews[k].rating == v
  }

  /** Filtering a concatenation filters each part. */
  lemma {:induction false} ProductRatingsAppend(a: seq<Review>, b: seq<Review>, productId: nat)
    ensures ProductRatings(a + b, productId) == ProductRatings(a, productId) + ProductRatings(b, productId)
  {
    if a == [] {
      assert a + b == b;
    } else {
      var ab := a + b;
      var head := if a[0].productId == productId then [a[0].rating] else [];
      assert ab[0] == a[0];
      assert ab[1..] == a[1..] + b;
      ProductRatingsAppend(a[1..], b, productId);
      assert ProductRatings(ab, productId) == head + ProductRatings(ab[1..], productId);
      assert ProductRatings(a, productId) == head + ProductRatings(a[1..], productId);
    }
  }

  /** One more review adds its index to the set exactly when it is a review of the product rated v. */
  lemma RatedAtStep(reviews: seq<Review>, productId: nat, v: int, n: nat)
    requires 0 < n <= |reviews|
    ensures |RatedAt(reviews, productId, v, n)| == |RatedAt(reviews, productId, v, n - 1)|
              + (if reviews[n - 1].productId == productId && reviews[n - 1].rating == v then 1 else 0)
  {
    var before := RatedAt(reviews, productId, v, n - 1);
    if reviews[n - 1].productId == productId && reviews[n - 1].rating == v {
      assert RatedAt(reviews, productId, v, n) == before + {n - 1};
    } else {
      assert RatedAt(reviews, productId, v, n) == before;
    }
  }

  /** One more review adds its rating to the ratings exactly when it is a review of the product. */
  lemma RatingsStep(reviews: seq<Review>, productId: nat, n: nat)
    requires 0 < n <= |reviews|
    ensures ProductRatings(reviews[..n], productId)
              == ProductRatings(reviews[..n - 1], productId)
                 + (if reviews[n - 1].productId == productId then [reviews[n - 1].rating] else [])
  {
    assert reviews[..n] == reviews[..n - 1] + [reviews[n - 1]];
    ProductRatingsAppend(reviews[..n - 1], [reviews[n - 1]], productId);
    assert ProductRatings([reviews[n - 1]], productId)
      == (if reviews[n - 1].productId == productId then [reviews[n - 1].rating] else []) + ProductRatings([], productId);
  }

  /** Over the first n reviews, each rating v occurs once per review of the product rated v. */
  lemma {:induction false} ProductRatingsCount(reviews: seq<Review>, productId: nat, v: int, n: nat)
    requires n <= |reviews|
    ensures multiset(ProductRatings(reviews[..n], productId))[v] == |RatedAt(reviews, productId, v, n)|
  {
    if n == 0 {
      assert RatedAt(reviews, productId, v, 0) == {};
    } else {
      ProductRatingsCount(reviews, productId, v, n - 1);
      RatingsStep(reviews, productId, n);
      RatedAtStep(reviews, productId, v, n);
    }
  }

  /** The ratings are exactly those of the product's reviews, counted once per review: every
      rating comes from a review of the product, every such review contributes its rating,
      and each value v occurs as often as the product has reviews rated v. */
  lemma {:induction false} ProductRatingsExact(reviews: seq<Review>, productId: nat)
    ensures var ratings := ProductRatings(reviews, productId);
      (forall j :: 0 <= j < |ratings| ==>
         exists k :: 0 <= k < |reviews| && reviews[k].productId == productId && reviews[k].rating == ratings[j])
      && (forall k :: 0 <= k < |reviews| && reviews[k].productId == productId ==> reviews[k].rating in ratings)
    ensures forall v :: multiset(ProductRatings(reviews, productId))[v]
                          == |set k: nat | k < |reviews| && reviews[k].productId == productId && reviews[k].rating == v|
  {
    if reviews != [] {
      ProductRatingsExact(reviews[1..], productId);
      assert forall k :: 1 <= k < |reviews| ==> reviews[k] == reviews[1..][k - 1];
    }
    assert reviews[..|reviews|] == reviews;
    forall v
      ensures multiset(ProductRatings(reviews, productId))[v]
                == |set k: nat | k < |reviews| && reviews[k].productId == productId && reviews[k].rating == v|
    {
      ProductRatingsCount(reviews, productId, v, |reviews|);
    }
  }

  function Sum(s: seq<int>): int {
    if s == [] then 0 else s[0] + Sum(s[1..])
  }

  /** The mean of the ratings, or 0 when there are none. */
  function AverageRating(ratings: seq<int>): (avg: real)
    ensures ratings == [] ==> avg == 0.0
  {
    if ratings == [] then 0.0 else (Sum(ratings) as real) / (|ratings| as real)
  }

  /** A sum of n values between lo and hi lies between n * lo and n * hi. */
  lemma {:induction false} SumBounds(s: seq<int>, lo: int, hi: int)
    requires forall k :: 0 <= k < |s| ==> lo <= s[k] <= hi
    ensures |s| * lo <= Sum(s) <= |s| * hi
  {
    if s != [] {
      SumBounds(s[1..], lo, hi);
      assert |s| * lo == lo + (|s| - 1) * lo;
      assert |s| * hi == hi + (|s| - 1) * hi;
    }
  }

  /** The average lies between the smallest and the largest allowed rating: with ratings of
      1 to 5 stars, it is between 1 and 5. */
  lemma AverageBounds(ratings: seq<int>, lo: int, hi: int)
    requires ratings != []
    requires forall k :: 0 <= k < |ratings| ==> lo <= ratings[k] <= hi
    ensures lo as real <= AverageRating(ratings) <= hi as real
  {
    SumBounds(ratings, lo, hi);
    var n := |ratings| as real;
    var total := Sum(ratings) as real;
    assert n * (lo as real) <= total <= n * (hi as real);
    assert total / n >= lo as real by {
      assert total >= (lo as real) * n;
    }
    assert total / n <= hi as real by {
      assert total <= (hi as real) * n;
    }
  }
}
