/** Optional values and handler outcomes shared by the marketplace modules. */
module Results {

  /** A value that may be absent: a nullable column, an omitted form field. */
  datatype Option<+T> = None | Some(value: T)

  /** Why a handler refused a request. Every refusal leaves the store unchanged. */
  datatype Rejection =
    | NotFound          // get_or_404 found no row with that id
    | AlreadySold       // buy_now on a product whose sold flag is set
    | OwnProduct        // buy_now on one's own listing
    | OtherCollege      // product_detail on a listing from another college
    | AlreadyReviewed   // add_review for a (product, reviewer) pair that has a review
    | AccessDenied      // an admin-only action by a non-admin
    | ZeroPrice         // sell_product divides by a selling price of zero

  /** The outcome of a handler: a value, or the reason it was refused. */
  datatype Result<+T> = Ok(value: T) | Err(reason: Rejection)
}
