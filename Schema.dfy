/** The rows of the marketplace's tables. Ids are positions: user u is users[u], product p is
    products[p]. Money is in integer cents, times are integer seconds. */
module Schema {
  import opened Results

  /** A registered account. Its college is referred to by id. */
  datatype User = User(
    username: string,
    email: string,
    collegeId: nat,
    isAdmin: bool,
    walletBalance: int)   // accumulated seller earnings, in cents

  /** A listing. description and brand are nullable columns. */
  datatype Product = Product(
    title: string,
    description: Option<string>,
    category: string,
    brand: Option<string>,
    condition: string,
    originalPrice: Option<nat>,
    sellingPrice: nat,
    commissionRate: real,  // the snapshot stored at listing time
    userId: nat,           // the seller
    isSold: bool,
    isFeatured: bool,
    viewCount: nat,
    createdAt: int)

  /** An uploaded picture of a product. */
  datatype ProductImage = ProductImage(productId: nat, imagePath: string, isPrimary: bool)

  /** A rating of a product by a reviewer; sellerId is copied from the product's owner. */
  datatype Review = Review(productId: nat, reviewerId: nat, sellerId: nat, rating: int, comment: string)

  /** One logged search. */
  datatype SearchLog = SearchLog(userId: nat, term: string, collegeId: nat, createdAt: int)

  datatype Status = Pending | Completed | Failed

  /** A recorded sale. */
  datatype Transaction = Transaction(
    productId: nat,
    buyerId: nat,
    sellerId: nat,
    amount: nat,
    commission: nat,
    sellerAmount: nat,
    paymentId: Option<string>,
    status: Status)

  /** One entry of the images field of the listing form: the client's file name, and the
      name under which the file store saved it (a fresh uuid-based name). */
  datatype Upload = Upload(filename: string, storedName: string)
}
