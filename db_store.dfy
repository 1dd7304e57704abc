/** The database of app/lib/db.ts as an object whose tables the prepared
    statements update in place. Each table is a sequence in rowid order; each
    `next…Id` is the AUTOINCREMENT counter that numbers the next inserted row. */
module Db {
  import opened Wrappers
  import opened Records
  import opened DbRows

  /** A snapshot of every table the model keeps. */
  datatype Database = Database(
    products: seq<Product>,
    bids: seq<Bid>,
    notifications: seq<Notification>,
    purchases: seq<Purchase>,
    nextProductId: int,
    nextBidId: int,
    nextNotificationId: int,
    nextPurchaseId: int)

  /** The row createProduct inserts: the supplied values plus the column
      defaults (status 'available', no buyer). */
  function NewProductRow(id: int, p: ProductParams, now: int): Product {
    Product(id, p.name, p.shortDescription, p.longDescription, p.price, p.stock,
            p.sellerId, p.category, Available, None, p.listingType, p.startingPrice,
            p.currentBid, p.auctionEnd, p.minBidStep, now)
  }

  /** The row createNotification inserts: is_read defaults to 0. */
  function NewNotificationRow(id: int, p: NotificationParams, now: int): (n: Notification)
    ensures !n.isRead && NotificationParamsOf(n) == p
  {
    Notification(id, p.userId, p.kind, p.data, false, now)
  }

  function NewPurchaseRow(id: int, p: PurchaseParams, now: int): (q: Purchase)
    ensures PurchaseParamsOf(q) == p
  {
    Purchase(id, p.productId, p.buyerId, p.buyerContact, p.contactType, now)
  }

  /** Some bid or purchase refers to product `id`. Neither foreign key has an
      ON DELETE action, so with foreign keys on such a product cannot be
      deleted. */
  predicate IsReferenced(bids: seq<Bid>, purchases: seq<Purchase>, id: int) {
    (exists b :: b in bids && b.productId == id) ||
    (exists q :: q in purchases && q.productId == id)
  }

  class Store {
    var products: seq<Product>
    var bids: seq<Bid>
    var notifications: seq<Notification>
    var purchases: seq<Purchase>
    var nextProductId: int
    var nextBidId: int
    var nextNotificationId: int
    var nextPurchaseId: int

    /** Ids are distinct and below the counter that numbers the next row. */
    ghost predicate Valid()
      reads this
    {
      DistinctProductIds(products) &&
      DistinctNotificationIds(notifications) &&
      (forall p :: p in products ==> p.id < nextProductId) &&
      (forall b :: b in bids ==> b.id < nextBidId) &&
      (forall n :: n in notifications ==> n.id < nextNotificationId) &&
      (forall q :: q in purchases ==> q.id < nextPurchaseId)
    }

    function Content(): Database
      reads this
    {
      Database(products, bids, notifications, purchases,
               nextProductId, nextBidId, nextNotificationId, nextPurchaseId)
    }

    /** A fresh, empty database. */
    constructor ()
      ensures Valid()
      ensures Content() == Database([], [], [], [], 1, 1, 1, 1)
    {
      products, bids, notifications, purchases := [], [], [], [];
      nextProductId, nextBidId, nextNotificationId, nextPurchaseId := 1, 1, 1, 1;
    }

    /** createProduct */
    method CreateProduct(p: ProductParams, now: int) returns (id: int)
      requires Valid()
      modifies this
      ensures Valid()
      ensures id == old(nextProductId) && nextProductId == id + 1
      ensures products == old(products) + [NewProductRow(id, p, now)]
      ensures id !in set q | q in old(products) :: q.id
      ensures bids == old(bids) && notifications == old(notifications) && purchases == old(purchases)
      ensures nextBidId == old(nextBidId) && nextNotificationId == old(nextNotificationId)
      ensures nextPurchaseId == old(nextPurchaseId)
    {
      id := nextProductId;
      products := products + [NewProductRow(id, p, now)];
      nextProductId := nextProductId + 1;
    }

    /** createBid */
    method CreateBid(productId: int, bidderId: int, amount: real, now: int) returns (id: int)
      requires Valid()
      modifies this
      ensures Valid()
      ensures id == old(nextBidId) && nextBidId == id + 1
      ensures bids == old(bids) + [Bid(id, productId, bidderId, amount, now)]
      ensures products == old(products) && notifications == old(notifications)
      ensures purchases == old(purchases)
      ensures nextProductId == old(nextProductId) && nextNotificationId == old(nextNotificationId)
      ensures nextPurchaseId == old(nextPurchaseId)
    {
      id := nextBidId;
      bids := bids + [Bid(id, productId, bidderId, amount, now)];
      nextBidId := nextBidId + 1;
    }

    /** createNotification: the new row is unread. */
    method CreateNotification(p: NotificationParams, now: int) returns (id: int)
      requires Valid()
      modifies this
      ensures Valid()
      ensures id == old(nextNotificationId) && nextNotificationId == id + 1
      ensures notifications == old(notifications) + [NewNotificationRow(id, p, now)]
      ensures products == old(products) && bids == old(bids) && purchases == old(purchases)
      ensures nextProductId == old(nextProductId) && nextBidId == old(nextBidId)
      ensures nextPurchaseId == old(nextPurchaseId)
    {
      id := nextNotificationId;
      var row := NewNotificationRow(id, p, now);
      forall i, j | 0 <= i < j < |notifications + [row]|
        ensures (notifications + [row])[i].id != (notifications + [row])[j].id
      {
        if j == |notifications| {
          assert notifications[i] in notifications;
        }
      }
      notifications := notifications + [row];
      nextNotificationId := nextNotificationId + 1;
    }

    /** createPurchase */
    method CreatePurchase(p: PurchaseParams, now: int) returns (id: int)
      requires Valid()
      modifies this
      ensures Valid()
      ensures id == old(nextPurchaseId) && nextPurchaseId == id + 1
      ensures purchases == old(purchases) + [NewPurchaseRow(id, p, now)]
      ensures products == old(products) && bids == old(bids) && notifications == old(notifications)
      ensures nextProductId == old(nextProductId) && nextBidId == old(nextBidId)
      ensures nextNotificationId == old(nextNotificationId)
    {
      id := nextPurchaseId;
      purchases := purchases + [NewPurchaseRow(id, p, now)];
      nextPurchaseId := nextPurchaseId + 1;
    }

    /** markAuctionAsSold, and markProductAsSold, which is the same UPDATE. */
    method MarkAsSold(buyerId: int, id: int)
      requires Valid()
      modifies this`products
      ensures Valid()
      ensures products == MarkSold(old(products), buyerId, id)
    {
      var r := MarkSold(products, buyerId, id);
      forall p | p in r ensures p.id < nextProductId {
        var k :| 0 <= k < |r| && r[k] == p;
        assert products[k] in products;
      }
      products := r;
    }

    /** updateProductCurrentBid: no check on the amount. */
    method UpdateProductCurrentBid(amount: real, id: int)
      requires Valid()
      modifies this`products
      ensures Valid()
      ensures products == SetCurrentBid(old(products), amount, id)
    {
      var r := SetCurrentBid(products, amount, id);
      forall p | p in r ensures p.id < nextProductId {
        var k :| 0 <= k < |r| && r[k] == p;
        assert products[k] in products;
      }
      products := r;
    }

    /** deleteProduct: removes the product only when `sellerId` is its seller.
        The statement fails, changing nothing, when it would remove a product
        that a bid or a purchase still refers to. */
    method DeleteProduct(id: int, sellerId: int) returns (ok: bool)
      requires Valid()
      modifies this`products
      ensures Valid()
      ensures ok <==> !((exists p :: p in old(products) && IsDeletedBy(p, id, sellerId)) &&
                        IsReferenced(bids, purchases, id))
      ensures products == if ok then DeleteRows(old(products), id, sellerId) else old(products)
    {
      var hits := exists p :: p in products && IsDeletedBy(p, id, sellerId);
      if hits && IsReferenced(bids, purchases, id) {
        ok := false;
      } else {
        FilterKeepsDistinctIds(products, (p: Product) => !IsDeletedBy(p, id, sellerId));
        products := DeleteRows(products, id, sellerId);
        ok := true;
      }
    }

    /** markNotificationAsRead */
    method MarkNotificationAsRead(id: int)
      requires Valid()
      modifies this`notifications
      ensures Valid()
      ensures notifications == MarkRead(old(notifications), id)
    {
      var r := MarkRead(notifications, id);
      forall n | n in r ensures n.id < nextNotificationId {
        var k :| 0 <= k < |r| && r[k] == n;
        assert notifications[k] in notifications;
      }
      notifications := r;
    }
  }
}
