/** Row shapes of the marketplace tables (app/types/index.ts and the
    CREATE TABLE statements of app/lib/db.ts). Money is an exact `real`,
    instants are an integer clock, and a nullable column is an `Option`. */
module Records {
  import opened Wrappers

  /** The `status` column of a product. */
  datatype Status = Available | Sold

  const FixedListing: string := "fixed"
  const AuctionListing: string := "auction"

  /** One row of `products`. `listingType` is kept as the string the row was
      inserted with: the listing handler stores types other than "fixed" and
      "auction" unchanged. */
  datatype Product = Product(
    id: int,
    name: string,
    shortDescription: string,
    longDescription: string,
    price: real,
    stock: int,
    sellerId: int,
    category: Option<string>,
    status: Status,
    buyerId: Option<int>,
    listingType: string,
    startingPrice: Option<real>,
    currentBid: Option<real>,
    auctionEnd: Option<int>,
    minBidStep: Option<real>,
    createdAt: int)

  /** One row of `bids`; bids are only ever appended. */
  datatype Bid = Bid(id: int, productId: int, bidderId: int, amount: real, createdAt: int)

  /** The JSON `data` of the notifications the settlement sweep writes. */
  datatype Payload =
    | WonPayload(productId: int, productName: string, winningBid: real, sellerId: int)
    | EndedPayload(productId: int, productName: string, winningBid: real, winnerId: int)
    | NoBidsPayload(productId: int, productName: string)

  /** The values an INSERT INTO notifications supplies. */
  datatype NotificationParams = NotificationParams(userId: int, kind: string, data: Payload)

  /** One row of `notifications`. */
  datatype Notification = Notification(
    id: int, userId: int, kind: string, data: Payload, isRead: bool, createdAt: int)

  /** The values an INSERT INTO purchases supplies. */
  datatype PurchaseParams = PurchaseParams(
    productId: int, buyerId: int, buyerContact: string, contactType: string)

  /** One row of `purchases`. */
  datatype Purchase = Purchase(
    id: int, productId: int, buyerId: int, buyerContact: string, contactType: string, createdAt: int)

  /** The values an INSERT INTO products supplies (createProduct); the
      remaining columns take their defaults. */
  datatype ProductParams = ProductParams(
    name: string,
    shortDescription: string,
    longDescription: string,
    price: real,
    stock: int,
    sellerId: int,
    category: Option<string>,
    listingType: string,
    startingPrice: Option<real>,
    currentBid: Option<real>,
    auctionEnd: Option<int>,
    minBidStep: Option<real>)

  function NotificationParamsOf(n: Notification): NotificationParams {
    NotificationParams(n.userId, n.kind, n.data)
  }

  function PurchaseParamsOf(p: Purchase): PurchaseParams {
    PurchaseParams(p.productId, p.buyerId, p.buyerContact, p.contactType)
  }

  /** Every product row of `ps` carries its own id. */
  ghost predicate DistinctProductIds(ps: seq<Product>) {
    forall i, j :: 0 <= i < j < |ps| ==> ps[i].id != ps[j].id
  }

  ghost predicate DistinctNotificationIds(ns: seq<Notification>) {
    forall i, j :: 0 <= i < j < |ns| ==> ns[i].id != ns[j].id
  }
}
