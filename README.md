# Campus marketplace: pricing engine and store handlers

This project models the data-level core of a campus marketplace. Users of one college list
used items, search the listings of their own college, buy them, and review them. The
platform takes a commission on each sale. The model covers:

- the **pricing engine**: the category commission, the seller's share, the suggested resale
  price and the price-suggestion endpoint;
- the **helpers**: the upload file-name check and the college domain taken from an email;
- the **analytics**: the top five search terms of a college over the last thirty days;
- the **store**: a `Marketplace` class holding the users, products, product images, reviews,
  search logs and transactions tables. Each handler is a method: search, payment, review,
  product view, featured toggle and listing with image upload. The buy-now guards change
  nothing, so they are a function of the store (`CanBuy`).

Modelling choices:

- Money is in integer cents. Rates and factors are integer percentages, so "rounded to two
  decimals" means "rounded to the nearest cent". Halves are rounded up.
- Times are integer seconds.
- Ids are positions in the tables: user `u` is `users[u]` and product `p` is `products[p]`.
  A new listing gets the next position, as an auto-increment key does.
- The requesting user is passed to each handler explicitly. The handlers require it to be an
  existing user, as a logged-in session guarantees.
- A lookup that would answer 404 returns `Err(NotFound)` and leaves the store unchanged. So does
  every other refusal.
- `Marketplace.Valid()` is the store invariant. Every handler preserves it. It says:
  - every reference points at an existing row;
  - there is at most one review per (product, reviewer) pair;
  - every review names the product's seller;
  - every transaction is completed, is for a sold product, is paid at its price to its seller,
    and has `commission + sellerAmount == amount`;
  - every wallet balance equals the seller amounts of that user's sales.
- Every handler that touches products also ensures `SoldKept`: sold flags are never cleared.

Where the code falls short of the marketplace's evident rules (a product is sold once, to someone other
than its seller; a review gives one to five stars to someone else's product), the model follows the code:

- `process_payment` does not check again that the product is unsold and not the buyer's own.
  Only `buy_now` checks this. Paying twice for one product records two transactions and
  credits the seller twice. `ProcessPayment` models this as written. Its contract says that
  afterwards `CanBuy` refuses the product as already sold.
- `add_review` does not stop users from reviewing their own products. It does not check that
  the rating is between 1 and 5.
- The window of the top searches includes a log made exactly thirty days before now
  (`created_at >= now - 30 days`).

## Model

| member | source | states |
|---|---|---|
| Text.Strip | main_function/app.py:195 | the stripped query has no whitespace at either end, and the input is that query padded with whitespace only (Python's whitespace set) |
| Text.StripUnpadded | main_function/app.py:195 | stripping a text with no whitespace at its ends gives the text back |
| Text.LowerSpec | main_function/app.py:106 | lower-casing keeps the length and maps each character through the ASCII lower-case table |
| Text.LowerIdempotent | main_function/app.py:106 | lower-casing twice is the same as lower-casing once |
| Text.Contains | main_function/app.py:218-220 | the substring test is true exactly when the query occurs at some position of the text |
| Helpers.ExtensionSpec | main_function/app.py:106 | there is no extension exactly when the name has no '.'; otherwise it is the text after the last '.' |
| Helpers.AllowedFile | main_function/app.py:104-106 | the upload check itself: the lower-cased extension is png, jpg, jpeg or gif; AllowedFileSpec and AllowedFileIgnoresCase state its meaning |
| Helpers.AllowedFileSpec | main_function/app.py:104-106 | a file is allowed exactly when it has a '.' and the lower-cased text after its last '.' is png, jpg, jpeg or gif |
| Helpers.AllowedFileIgnoresCase | main_function/app.py:104-106 | a stem, a dot and an extension that is allowed once lower-cased (such as JPG) make an allowed file name |
| Helpers.ExtractCollegeFromEmail | main_function/app.py:142-145 | the result is absent exactly when the email has no '@' (Python raises IndexError there); the domain never contains '@' |
| Helpers.ExtractDomain | main_function/app.py:142-145 | for local@domain with a single '@', the result is the lower-cased domain |
| Pricing.CommissionRate | main_function/app.py:110-115 | every category gets a rate between 5% and 10%; an unknown one is not an error |
| Pricing.CommissionRateTable | main_function/app.py:110-115 | Books 5%, Stationary 7%, Non-Stationary 10%, any other category 5% |
| Pricing.Commission | main_function/app.py:108-116 | the commission is price × rate rounded to the nearest cent (within half a cent), and it never exceeds the price |
| Pricing.SellerAmount | main_function/app.py:455-456 | the seller's share plus the commission is exactly the price |
| Pricing.CommissionMonotone | main_function/app.py:108-116 | a higher price never gives a smaller commission in the same category |
| Pricing.CommissionExamples | main_function/app.py:108-116 | 100.00 in Books gives 5.00, in Non-Stationary 10.00, in an unknown category 5.00 |
| Pricing.ConditionFactor | main_function/app.py:123-137 | the condition multiplier in percent (New 95, Like New 85, Good 70, Fair 50, Poor 30, otherwise 70); always between 30 and 95 |
| Pricing.BrandFactor | main_function/app.py:131-138 | the brand multiplier in percent (premium 110, medium 100, budget 90, otherwise 100); always between 90 and 110 |
| Pricing.SuggestedPrice | main_function/app.py:118-140 | None exactly when the original price is missing or zero; otherwise original × condition factor × brand factor, to the nearest cent |
| Pricing.SuggestedPriceMonotone | main_function/app.py:118-140 | a higher original price never gives a lower suggestion for the same condition and tier |
| Pricing.SuggestedPriceExamples | main_function/app.py:118-140 | 1000.00, Good, premium suggests 770.00; no original price gives None; unknown condition and tier fall back to 0.70 and 1.00 |
| Pricing.CalculatePrice | main_function/app.py:602-614 | the endpoint answers "invalid data" exactly when the raw JSON price is falsy; it answers a null suggestion exactly when a truthy raw price (such as the string "0") parses to zero; otherwise the suggestion is the parsed price times both factors to the nearest cent, with a missing tier read as medium |
| Pricing.CalculatePriceDefaultTier | main_function/app.py:608 | a request without a brand tier is priced exactly as one with tier "medium", at factor 1.00 |
| Analytics.WindowTerms | main_function/app.py:153-155 | a term is in the window exactly when some log of the college with that term is no older than thirty days |
| Analytics.HitsPositive | main_function/app.py:150-156 | a term's count is positive exactly when it was searched in the window |
| Analytics.Tally | main_function/app.py:150-156 | grouping gives each searched term once, with its exact count, and gives every term searched in the window |
| Analytics.TopSearches | main_function/app.py:150-156 | the top-searches report: the ranking cut to five entries; TopBounded, TopCounted, TopOrdered, TopDistinct and TopComplete state it |
| Analytics.TopBounded | main_function/app.py:156 | the report has at most five entries and is a prefix of the ranking; it is shorter than the ranking only when it has five |
| Analytics.TopCounted | main_function/app.py:150-156 | each entry is a term searched in the window by this college, with its exact, positive count |
| Analytics.TopOrdered | main_function/app.py:156 | counts never increase along the report |
| Analytics.TopDistinct | main_function/app.py:156 | no term appears twice in the report |
| Analytics.TopComplete | main_function/app.py:150-156 | a term searched in the window but missing from the report means five terms are listed, each searched at least as often |
| Sorting.SortDesc | main_function/app.py:227 | the sorted rows are a permutation of the input rows |
| Sorting.SortDescSorted | main_function/app.py:227 | the sorted rows' keys never increase |
| Sorting.PermutationKeepsDistinct | main_function/app.py:227 | reordering rows keeps them free of duplicates |
| Catalog.MatchesQuery | main_function/app.py:216-222 | the text filter: the query occurs in the title, or in a description or brand that is not NULL; Text.Contains states the substring test |
| Catalog.Listed | main_function/app.py:209-225 | a product is listed for the requester when its seller shares the requester's college, it is unsold, it is not the requester's own, and it passes the text and category filters when these are non-empty; Candidates and SearchResultsExact state the result in these terms |
| Catalog.SearchResults | main_function/app.py:209-227 | the search query: the listed products, newest first; SearchResultsExact and SearchResultsNewestFirst state it |
| Catalog.Candidates | main_function/app.py:209-225 | the candidate ids are exactly the products passing the college, unsold, not-own, text and category filters, each once |
| Catalog.SearchResultsExact | main_function/app.py:209-227 | a product is in the results exactly when it passes every filter, and no product appears twice |
| Catalog.SearchResultsNewestFirst | main_function/app.py:227 | the results are ordered by creation time, newest first |
| Catalog.ProductRatings | main_function/app.py:424 | there are no ratings exactly when the product has no review, and never more ratings than reviews |
| Catalog.ProductRatingsExact | main_function/app.py:424 | every rating comes from a review of the product, every review of the product contributes its rating, and each value occurs exactly as many times as the product has reviews with that rating |
| Catalog.ProductRatingsAppend | main_function/app.py:424 | filtering the reviews of a concatenation gives the ratings of each part, in order |
| Catalog.ProductRatingsCount | main_function/app.py:424 | over the first n reviews, each rating occurs once per review of the product with that rating |
| Catalog.AverageRating | main_function/app.py:424-425 | the average of no ratings is 0 |
| Catalog.AverageBounds | main_function/app.py:424-425 | a non-empty average lies between the lowest and the highest allowed rating (1 to 5 stars gives 1 to 5) |
| Store.HasReviewed | main_function/app.py:513-518 | the duplicate-review lookup: some review has this product and this reviewer; AddReview refuses exactly then |
| Store.AppendFreshReview | main_function/app.py:512-534 | appending a review for a pair that has none keeps one review per (product, reviewer) pair |
| Store.EarningsAppend | main_function/app.py:494-498 | a new transaction adds its seller amount to its seller's earnings and to nobody else's |
| Store.SoldKeptTransitive | main_function/app.py:492 | sold flags that are never cleared by each step are never cleared over a run of steps |
| Store.FlipFeatured | main_function/app.py:594 | only that product's featured flag changes, and it is negated |
| Store.FlipFeaturedTwice | main_function/app.py:594 | toggling the same product twice restores the original products |
| Store.Accepted | main_function/app.py:386 | the guard of the image loop: a non-empty file name that passes AllowedFile |
| Store.ImageRows | main_function/app.py:385-394 | the image rows of the first n uploads, one per accepted upload, primary for upload index 0; ImageRowsCount, ImageRowsOfProduct, ImageRowsPrimary and AtMostOnePrimary state it |
| Store.ImageRowsCount | main_function/app.py:385-395 | there is one image row per accepted upload |
| Store.ImageRowsOfProduct | main_function/app.py:390-394 | every image row belongs to the new product |
| Store.ImageRowsPrimary | main_function/app.py:385-394 | only the row of upload 0 can be primary; it is primary when upload 0 was accepted; a skipped upload 0 leaves no primary |
| Store.AtMostOnePrimary | main_function/app.py:393 | a listing has at most one primary image |
| Store.AddListingKeeps | main_function/app.py:368-381 | a listing by an existing seller keeps the store invariant |
| Store.StageImages | main_function/app.py:384-394 | the loop stages exactly the rows of the accepted uploads, in order, primary only for upload index 0 |
| Store.LogSearchKeeps | main_function/app.py:198-206 | a log of a known user, tagged with that user's college, keeps the store invariant |
| Store.RecordSaleKeeps | main_function/app.py:476-498 | recording a completed sale (product sold, seller credited) keeps the store invariant, wallets included |
| Store.AddImagesKeeps | main_function/app.py:390-395 | image rows of existing products keep the store invariant |
| Store.Marketplace.constructor | main_function/app.py:45 | a store of registered users with empty wallets and no other rows satisfies the invariant |
| Store.Marketplace.Search | main_function/app.py:189-229 | one log (user, stripped query, college) is appended exactly when the stripped query is non-empty; nothing else changes; the results are `Catalog.SearchResults` |
| Store.Marketplace.CanBuy | main_function/app.py:438-462 | unknown, already sold and own products are refused, in that order; every other product is quoted; the quote splits the price into commission and seller amount |
| Store.Marketplace.ProcessPayment | main_function/app.py:464-502 | exactly one completed transaction at the selling price is appended; that product is marked sold; its seller's wallet grows by exactly the seller amount; nothing else changes; a later buy attempt is refused as already sold |
| Store.Marketplace.AddReview | main_function/app.py:504-537 | a repeated (product, reviewer) pair changes nothing; otherwise exactly one review is appended, its seller copied from the product's owner |
| Store.Marketplace.ViewProduct | main_function/app.py:403-436 | a viewer from another college is refused and nothing changes; otherwise only that product's view count grows by one, and the average rating (0 without reviews), commission and seller share are returned |
| Store.Marketplace.ToggleFeatured | main_function/app.py:583-599 | a non-admin changes nothing; an admin flips only that product's featured flag |
| Store.Marketplace.AddImages | main_function/app.py:384-395 | the image rows appended are exactly those of the accepted uploads, in order, primary only for upload index 0 |
| Store.Marketplace.SellProduct | main_function/app.py:351-399 | a zero selling price fails (division by zero) and stores nothing; otherwise one unsold, unfeatured, unviewed listing with its rate snapshot is appended, followed by its image rows |

## Left out

- Web plumbing: routes, templates, flash messages, redirects and the session cookie.
  The requesting user is a parameter, and the handlers require it to be an existing user.
  Most handlers look the session user up and fail with an AttributeError when it no longer exists.
- The database: lazy relationships, migrations and commits. Each handler is one atomic update.
  `sell_product` commits the listing before its images; the model does both in one step.
- Concurrency between requests: the model is sequential.
- Registration, login, logout, profile editing, the profile page, "my products" and the home page:
  email regex matching, password hashing and the `.title()` default college name.
- The College table: users refer to a college by id only.
- The admin dashboard counts and sums (lines 568-574), and the `category_stats` and `monthly_views`
  analytics queries (lines 159-173): simple counts and sums.
- The list of reviews shown on the product page, ordered by date: reviews carry no timestamp here.
- The seller's average rating on the profile page (lines 305-309): it uses the same mean as the product page.
- File storage: saving files, `secure_filename` and uuids. Each upload carries the stored name the file store chose.
- The payment gateway: the payment id is an opaque optional string.
- Parsing form fields: `float(...)` and `int(...)` of malformed text, negative prices, and column length limits.
- The SQL `LIKE` behind `.contains`: the text filter is a plain, case-sensitive substring test. It does not model
  case folding by the database, nor the unescaped `%` and `_` in a query acting as wildcards ("a_c" matches "abc" in the source).
- The order of rows with equal keys under `ORDER BY`.
- Text.Lower: lower-cases ASCII letters only, while Python's `lower()` also folds other Unicode letters.
- Pricing.Commission: rounds halves up on exact cents, not Python's half-even `round` on binary floats.
- Pricing.SuggestedPrice: rounds halves up on exact cents, not Python's `round` on binary floats; it multiplies both factors exactly, not in float.
- Catalog.AverageRating: is the exact mean, not rounded to one decimal as the source does.
- Store.Marketplace.SellProduct: the rate snapshot is an exact rational, not a float.
- Store.Marketplace.SellProduct: requires an existing seller. The source never looks the session user up here, so a stale session stores a listing whose seller does not exist.
- Pricing.CalculatePrice: the raw price is given as falsy or truthy-with-its-parsed-value; JSON decoding and a float() that raises are not modelled.
