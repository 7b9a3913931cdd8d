/** The pricing engine: category commission and suggested resale price.
    Money is in integer cents and every rate is an integer percentage, so
    "rounded to 2 decimals" becomes "rounded to the nearest cent". */
module Pricing {
  import opened Results

  /** n / d rounded to the nearest integer, halves rounded up. */
  function RoundedDiv(n: nat, d: nat): (q: nat)
    requires d > 0
    ensures 2 * n < (2 * q + 1) * d
    ensures (2 * q) * d <= 2 * n + d
  {
    var q := (2 * n + d) / (2 * d);
    assert q * (2 * d) <= 2 * n + d < (q + 1) * (2 * d);
    q
  }

  /** Rounding to the nearest integer keeps the order of its arguments. */
  lemma {:induction false} RoundedDivMonotone(a: nat, b: nat, d: nat)
    requires d > 0 && a <= b
    ensures RoundedDiv(a, d) <= RoundedDiv(b, d)
  {
    var qa, qb := RoundedDiv(a, d), RoundedDiv(b, d);
    assert (2 * qa) * d < (2 * qb + 2) * d;
    MulCancel(2 * qa, 2 * qb + 2, d);
  }

  lemma MulCancel(x: nat, y: nat, d: nat)
    requires d > 0 && x * d < y * d
    ensures x < y
  {
    if x >= y {
      MulMonotone(y, x, d);
    }
  }

  /** Commission rate per category, in percent. */
  const CommissionRates: map<string, nat> := map["Books" := 5, "Stationary" := 7, "Non-Stationary" := 10]
  /** The rate of every category missing from the table. */
  const DefaultCommissionRate: nat := 5

  /** The rate of a category: its entry in the table, else the default; it is never an error. */
  function CommissionRate(category: string): (rate: nat)
    ensures 5 <= rate <= 10
  {
    if category in CommissionRates then CommissionRates[category] else DefaultCommissionRate
  }

  /** The rate table as the application lists it. */
  lemma CommissionRateTable(category: string)
    ensures CommissionRate("Books") == 5
    ensures CommissionRate("Stationary") == 7
    ensures CommissionRate("Non-Stationary") == 10
    ensures category !in {"Books", "Stationary", "Non-Stationary"} ==> CommissionRate(category) == 5
  {
  }

  /** calculate_commission: price times the category's rate, to the nearest cent.
      It never exceeds the price, so the seller's share is never negative. */
  function Commission(price: nat, category: string): (c: nat)
    ensures c <= price
    ensures 2 * (price * CommissionRate(category)) < (2 * c + 1) * 100
    ensures (2 * c) * 100 <= 2 * (price * CommissionRate(category)) + 100
  {
    var rate := CommissionRate(category);
    var c := RoundedDiv(price * rate, 100);
    assert c <= price by {
      assert 2 * (price * rate) <= 2 * (price * 10);
    }
    c
  }

  /** What the seller is credited for a sale: the price less the commission. */
  function SellerAmount(price: nat, category: string): (s: nat)
    ensures s <= price
    ensures s + Commission(price, category) == price
  {
    price - Commission(price, category)
  }

  /** A dearer price never earns a smaller commission. */
  lemma CommissionMonotone(p1: nat, p2: nat, category: string)
    requires p1 <= p2
    ensures Commission(p1, category) <= Commission(p2, category)
  {
    var rate := CommissionRate(category);
    assert p1 * rate <= p2 * rate;
    RoundedDivMonotone(p1 * rate, p2 * rate, 100);
  }

  /** The worked figures: 100.00 in Books gives 5.00, in Non-Stationary 10.00, elsewhere 5.00. */
  lemma CommissionExamples()
    ensures Commission(10000, "Books") == 500
    ensures Commission(10000, "Non-Stationary") == 1000
    ensures Commission(10000, "UnknownCat") == 500
    ensures SellerAmount(10000, "Stationary") == 9300
  {
  }

  /** Depreciation by condition, in percent; an unknown or missing condition is 70. */
  const ConditionFactors: map<string, nat> :=
    map["New" := 95, "Like New" := 85, "Good" := 70, "Fair" := 50, "Poor" := 30]
  const DefaultConditionFactor: nat := 70

  /** Adjustment by brand tier, in percent; an unknown or missing tier is 100. */
  const BrandFactors: map<string, nat> := map["premium" := 110, "medium" := 100, "budget" := 90]
  const DefaultBrandFactor: nat := 100

  function ConditionFactor(condition: Option<string>): (f: nat)
    ensures 30 <= f <= 95
  {
    if condition.Some? && condition.value in ConditionFactors then ConditionFactors[condition.value]
    else DefaultConditionFactor
  }

  function BrandFactor(brandTier: Option<string>): (f: nat)
    ensures 90 <= f <= 110
  {
    if brandTier.Some? && brandTier.value in BrandFactors then BrandFactors[brandTier.value]
    else DefaultBrandFactor
  }

  /** calculate_suggested_price: None exactly when the original price is missing or zero
      (Python's `not original_price`); otherwise the original price times both factors,
      to the nearest cent. */
  function SuggestedPrice(originalPrice: Option<nat>, condition: Option<string>, brandTier: Option<string>)
    : (r: Option<nat>)
    ensures r.None? <==> originalPrice.None? || originalPrice.value == 0
    ensures r.Some? ==>
      var scaled := originalPrice.value * (ConditionFactor(condition) * BrandFactor(brandTier));
      2 * scaled < (2 * r.value + 1) * 10000 && (2 * r.value) * 10000 <= 2 * scaled + 10000
  {
    match originalPrice
    case None => None
    case Some(p) =>
      if p == 0 then None
      else Some(RoundedDiv(p * (ConditionFactor(condition) * BrandFactor(brandTier)), 10000))
  }

  /** A dearer original price never gives a smaller suggestion. */
  lemma SuggestedPriceMonotone(p1: nat, p2: nat, condition: Option<string>, brandTier: Option<string>)
    requires 0 < p1 <= p2
    ensures SuggestedPrice(Some(p1), condition, brandTier).value <= SuggestedPrice(Some(p2), condition, brandTier).value
  {
    var k := ConditionFactor(condition) * BrandFactor(brandTier);
    MulMonotone(p1, p2, k);
    RoundedDivMonotone(p1 * k, p2 * k, 10000);
  }

  lemma MulMonotone(a: nat, b: nat, k: nat)
    requires a <= b
    ensures a * k <= b * k
  {
  }

  /** The worked figure: 1000.00 in Good condition from a premium brand suggests 770.00. */
  lemma SuggestedPriceExamples()
    ensures SuggestedPrice(Some(100000), Some("Good"), Some("premium")) == Some(77000)
    ensures SuggestedPrice(None, Some("Good"), Some("medium")) == None
    ensures SuggestedPrice(Some(100000), Some("Broken"), Some("luxury")) == Some(70000)
  {
  }

  /** The original price as the endpoint receives it in JSON: a falsy value (missing, null,
      zero, an empty string), or a truthy one together with what float() makes of it, in cents.
      A truthy string such as "0" can still parse to zero. */
  datatype RawPrice = Falsy | Truthy(parsed: nat)

  /** The reply of the price-suggestion endpoint: a suggestion, which is null when the parsed
      price is zero, or the invalid-data error. */
  datatype PriceReply = Suggested(price: Option<nat>) | InvalidData

  /** calculate_price: the error reply for a falsy original price; otherwise the suggestion for
      the parsed price, where a missing brand tier means "medium". */
  function CalculatePrice(originalPrice: RawPrice, condition: Option<string>, brandTier: Option<string>)
    : (reply: PriceReply)
    ensures reply == InvalidData <==> originalPrice.Falsy?
    ensures reply == Suggested(None) <==> originalPrice == Truthy(0)
    ensures reply.Suggested? && reply.price.Some? ==>
      var p := originalPrice.parsed;
      var tier := if brandTier.Some? then brandTier.value else "medium";
      2 * (p * (ConditionFactor(condition) * BrandFactor(Some(tier)))) < (2 * reply.price.value + 1) * 10000
      && 2 * reply.price.value * 10000 <= 2 * (p * (ConditionFactor(condition) * BrandFactor(Some(tier)))) + 10000
  {
    var tier := if brandTier.Some? then brandTier.value else "medium";
    match originalPrice
    case Falsy => InvalidData
    case Truthy(p) => Suggested(SuggestedPrice(Some(p), condition, Some(tier)))
  }

  /** A missing brand tier is priced as "medium", i.e. at factor 1.00. */
  lemma CalculatePriceDefaultTier(p: nat, condition: Option<string>)
    ensures CalculatePrice(Truthy(p), condition, None) == CalculatePrice(Truthy(p), condition, Some("medium"))
    ensures CalculatePrice(Truthy(p), condition, None) == Suggested(SuggestedPrice(Some(p), condition, None))
  {
  }
}
