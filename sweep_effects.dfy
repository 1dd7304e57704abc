/** What a settlement sweep does to the tables, in closed form.

    `Settled` is the database after every statement of a sweep has run: the
    ended auctions with a highest bid are sold to its bidder, and the
    purchases and notifications the sweep writes are appended in auction
    order. The lemmas derive from it the promises of
    app/lib/auction-processor.ts: exactly one purchase and two notices per won
    auction, exactly one notice per auction without bids, nothing but status
    and buyer changes on a product, and what a second sweep does. */
module SweepEffects {
  import opened Wrappers
  import opened Records
  import opened DbRows
  import opened Db
  import opened AuctionProcessor

  /** The notifications the settlement of auction `a` appends. */
  function NoticesOf(a: Product, highest: Option<Bid>): seq<NotificationParams> {
    match highest
    case Some(w) => [WonNotice(a, w), EndedNotice(a, w)]
    case None => [NoBidsNotice(a)]
  }

  /** The purchases the settlement of auction `a` appends. */
  function PurchasesOf(a: Product, highest: Option<Bid>): seq<PurchaseParams> {
    match highest
    case Some(w) => [WinnerPurchase(a, w)]
    case None => []
  }

  /** The notifications a sweep over `auctions` appends, in order. */
  function Notices(auctions: seq<Product>, bids: seq<Bid>): seq<NotificationParams> {
    if |auctions| == 0 then []
    else
      var last := auctions[|auctions| - 1];
      Notices(auctions[..|auctions| - 1], bids) + NoticesOf(last, HighestBid(bids, last.id))
  }

  /** The purchases a sweep over `auctions` appends, in order. */
  function Purchases(auctions: seq<Product>, bids: seq<Bid>): seq<PurchaseParams> {
    if |auctions| == 0 then []
    else
      var last := auctions[|auctions| - 1];
      Purchases(auctions[..|auctions| - 1], bids) + PurchasesOf(last, HighestBid(bids, last.id))
  }

  /** The rows createNotification inserts for `ps`, numbered from `firstId`. */
  function NotificationRows(firstId: int, ps: seq<NotificationParams>, now: int): seq<Notification> {
    seq(|ps|, k requires 0 <= k < |ps| => NewNotificationRow(firstId + k, ps[k], now))
  }

  /** The rows createPurchase inserts for `ps`, numbered from `firstId`. */
  function PurchaseRows(firstId: int, ps: seq<PurchaseParams>, now: int): seq<Purchase> {
    seq(|ps|, k requires 0 <= k < |ps| => NewPurchaseRow(firstId + k, ps[k], now))
  }

  lemma NotificationRowsAppend(firstId: int, ps: seq<NotificationParams>, qs: seq<NotificationParams>, now: int)
    ensures NotificationRows(firstId, ps + qs, now) ==
      NotificationRows(firstId, ps, now) + NotificationRows(firstId + |ps|, qs, now)
  {
    var l, r := NotificationRows(firstId, ps + qs, now), NotificationRows(firstId, ps, now) + NotificationRows(firstId + |ps|, qs, now);
    assert |l| == |r|;
    forall k | 0 <= k < |l| ensures l[k] == r[k] {
      if k >= |ps| {
        assert (ps + qs)[k] == qs[k - |ps|];
      }
    }
  }

  lemma PurchaseRowsAppend(firstId: int, ps: seq<PurchaseParams>, qs: seq<PurchaseParams>, now: int)
    ensures PurchaseRows(firstId, ps + qs, now) ==
      PurchaseRows(firstId, ps, now) + PurchaseRows(firstId + |ps|, qs, now)
  {
    var l, r := PurchaseRows(firstId, ps + qs, now), PurchaseRows(firstId, ps, now) + PurchaseRows(firstId + |ps|, qs, now);
    assert |l| == |r|;
    forall k | 0 <= k < |l| ensures l[k] == r[k] {
      if k >= |ps| {
        assert (ps + qs)[k] == qs[k - |ps|];
      }
    }
  }

  /** The ids of `auctions`. */
  function AuctionIds(auctions: seq<Product>): (r: set<int>)
    ensures forall id :: id in r <==> exists a :: a in auctions && a.id == id
  {
    if |auctions| == 0 then {}
    else
      var init := auctions[..|auctions| - 1];
      assert forall a :: a in auctions <==> a in init || a == auctions[|auctions| - 1];
      AuctionIds(init) + {auctions[|auctions| - 1].id}
  }

  /** Product row `p` after a sweep over `auctions`: sold to the highest
      bidder when its id is that of a swept auction with a bid. */
  function Swept(p: Product, auctions: seq<Product>, bids: seq<Bid>): Product {
    var highest := HighestBid(bids, p.id);
    if p.id in AuctionIds(auctions) && highest.Some? then
      p.(status := Sold, buyerId := Some(highest.value.bidderId))
    else p
  }

  function SweptRows(ps: seq<Product>, auctions: seq<Product>, bids: seq<Bid>): seq<Product> {
    seq(|ps|, k requires 0 <= k < |ps| => Swept(ps[k], auctions, bids))
  }

  /** The database after the settlement of auction `a` with highest bid `highest`. */
  function AfterSettlement(db: Database, a: Product, highest: Option<Bid>, now: int): Database {
    db.(products := if highest.Some? then MarkSold(db.products, highest.value.bidderId, a.id) else db.products,
        notifications := db.notifications + NotificationRows(db.nextNotificationId, NoticesOf(a, highest), now),
        nextNotificationId := db.nextNotificationId + |NoticesOf(a, highest)|,
        purchases := db.purchases + PurchaseRows(db.nextPurchaseId, PurchasesOf(a, highest), now),
        nextPurchaseId := db.nextPurchaseId + |PurchasesOf(a, highest)|)
  }

  /** The database after a completed sweep over `auctions` at time `now`. */
  function Settled(db: Database, auctions: seq<Product>, now: int): Database {
    var notices, purchases := Notices(auctions, db.bids), Purchases(auctions, db.bids);
    db.(products := SweptRows(db.products, auctions, db.bids),
        notifications := db.notifications + NotificationRows(db.nextNotificationId, notices, now),
        nextNotificationId := db.nextNotificationId + |notices|,
        purchases := db.purchases + PurchaseRows(db.nextPurchaseId, purchases, now),
        nextPurchaseId := db.nextPurchaseId + |purchases|)
  }

  lemma WonSettlementEffect(db: Database, a: Product, w: Bid, now: int)
    ensures Run(db, Settlement(a, Some(w)), now) == AfterSettlement(db, a, Some(w), now)
  {
    var sts := Settlement(a, Some(w));
    assert sts[..0] == [] && sts[..5] == sts;
    RunStep(db, sts, 0, now);
    RunStep(db, sts, 1, now);
    RunStep(db, sts, 2, now);
    RunStep(db, sts, 3, now);
    RunStep(db, sts, 4, now);
    var id := db.nextNotificationId;
    assert NotificationRows(id, NoticesOf(a, Some(w)), now) ==
      [NewNotificationRow(id, WonNotice(a, w), now), NewNotificationRow(id + 1, EndedNotice(a, w), now)];
    assert PurchaseRows(db.nextPurchaseId, PurchasesOf(a, Some(w)), now) ==
      [NewPurchaseRow(db.nextPurchaseId, WinnerPurchase(a, w), now)];
  }

  lemma NoBidsSettlementEffect(db: Database, a: Product, now: int)
    ensures Run(db, Settlement(a, None), now) == AfterSettlement(db, a, None, now)
  {
    var sts := Settlement(a, None);
    assert sts[..0] == [] && sts[..2] == sts;
    RunStep(db, sts, 0, now);
    RunStep(db, sts, 1, now);
    assert PurchaseRows(db.nextPurchaseId, [], now) == [];
    assert NotificationRows(db.nextNotificationId, NoticesOf(a, None), now) ==
      [NewNotificationRow(db.nextNotificationId, NoBidsNotice(a), now)];
  }

  lemma SettlementEffect(db: Database, a: Product, highest: Option<Bid>, now: int)
    ensures Run(db, Settlement(a, highest), now) == AfterSettlement(db, a, highest, now)
  {
    match highest {
      case Some(w) => WonSettlementEffect(db, a, w, now);
      case None => NoBidsSettlementEffect(db, a, now);
    }
  }

  /** Settling one more auction after `init` sells what `Swept` says. */
  lemma SweptRowsSnoc(ps: seq<Product>, auctions: seq<Product>, bids: seq<Bid>)
    requires |auctions| > 0
    ensures var last := auctions[|auctions| - 1];
      var highest := HighestBid(bids, last.id);
      var before := SweptRows(ps, auctions[..|auctions| - 1], bids);
      SweptRows(ps, auctions, bids) ==
        if highest.Some? then MarkSold(before, highest.value.bidderId, last.id) else before
  {
  }

  lemma NoticesSnoc(auctions: seq<Product>, bids: seq<Bid>)
    requires |auctions| > 0
    ensures var last := auctions[|auctions| - 1];
      Notices(auctions, bids) == Notices(auctions[..|auctions| - 1], bids) + NoticesOf(last, HighestBid(bids, last.id)) &&
      Purchases(auctions, bids) == Purchases(auctions[..|auctions| - 1], bids) + PurchasesOf(last, HighestBid(bids, last.id))
  {
  }

  /** Settling the auctions one by one builds up `Settled`. */
  lemma SettledSnoc(db: Database, auctions: seq<Product>, now: int)
    requires |auctions| > 0
    ensures var last := auctions[|auctions| - 1];
      Settled(db, auctions, now) ==
        AfterSettlement(Settled(db, auctions[..|auctions| - 1], now), last, HighestBid(db.bids, last.id), now)
  {
    var init, last := auctions[..|auctions| - 1], auctions[|auctions| - 1];
    var highest := HighestBid(db.bids, last.id);
    var r, l := Settled(db, auctions, now), AfterSettlement(Settled(db, init, now), last, highest, now);
    SweptRowsSnoc(db.products, auctions, db.bids);
    assert r.products == l.products;
    SettledNotificationsSnoc(db, auctions, now);
    SettledPurchasesSnoc(db, auctions, now);
  }

  lemma SettledNotificationsSnoc(db: Database, auctions: seq<Product>, now: int)
    requires |auctions| > 0
    ensures var last := auctions[|auctions| - 1];
      var r := Settled(db, auctions, now);
      var l := AfterSettlement(Settled(db, auctions[..|auctions| - 1], now), last, HighestBid(db.bids, last.id), now);
      r.notifications == l.notifications && r.nextNotificationId == l.nextNotificationId
  {
    var init, last := auctions[..|auctions| - 1], auctions[|auctions| - 1];
    var n0, n1 := Notices(init, db.bids), NoticesOf(last, HighestBid(db.bids, last.id));
    NoticesSnoc(auctions, db.bids);
    NotificationsAppended(db.notifications, db.nextNotificationId, n0, n1, now);
  }

  lemma SettledPurchasesSnoc(db: Database, auctions: seq<Product>, now: int)
    requires |auctions| > 0
    ensures var last := auctions[|auctions| - 1];
      var r := Settled(db, auctions, now);
      var l := AfterSettlement(Settled(db, auctions[..|auctions| - 1], now), last, HighestBid(db.bids, last.id), now);
      r.purchases == l.purchases && r.nextPurchaseId == l.nextPurchaseId
  {
    var init, last := auctions[..|auctions| - 1], auctions[|auctions| - 1];
    var q0, q1 := Purchases(init, db.bids), PurchasesOf(last, HighestBid(db.bids, last.id));
    NoticesSnoc(auctions, db.bids);
    assert Purchases(auctions, db.bids) == q0 + q1;
    PurchasesAppended(db.purchases, db.nextPurchaseId, q0, q1, now);
  }


  lemma NotificationsAppended(ns: seq<Notification>, firstId: int, ps: seq<NotificationParams>,
                              qs: seq<NotificationParams>, now: int)
    ensures ns + NotificationRows(firstId, ps + qs, now) ==
      (ns + NotificationRows(firstId, ps, now)) + NotificationRows(firstId + |ps|, qs, now)
  {
    NotificationRowsAppend(firstId, ps, qs, now);
  }

  lemma PurchasesAppended(ns: seq<Purchase>, firstId: int, ps: seq<PurchaseParams>,
                          qs: seq<PurchaseParams>, now: int)
    ensures ns + PurchaseRows(firstId, ps + qs, now) ==
      (ns + PurchaseRows(firstId, ps, now)) + PurchaseRows(firstId + |ps|, qs, now)
  {
    PurchaseRowsAppend(firstId, ps, qs, now);
  }

  lemma {:induction false} SettlementsEffect(db: Database, auctions: seq<Product>, now: int)
    ensures Run(db, Settlements(auctions, db.bids), now) == Settled(db, auctions, now)
  {
    if |auctions| == 0 {
      assert SweptRows(db.products, auctions, db.bids) == db.products;
      assert NotificationRows(db.nextNotificationId, [], now) == [];
      assert PurchaseRows(db.nextPurchaseId, [], now) == [];
    } else {
      var init, last := auctions[..|auctions| - 1], auctions[|auctions| - 1];
      var highest := HighestBid(db.bids, last.id);
      SettlementsEffect(db, init, now);
      SettlementsSnoc(auctions, db.bids, |auctions| - 1);
      assert auctions[..|auctions| - 1 + 1] == auctions;
      RunAppend(db, Settlements(init, db.bids), Settlement(last, highest), now);
      SettlementEffect(Settled(db, init, now), last, highest, now);
      SettledSnoc(db, auctions, now);
    }
  }

  /** A completed sweep at time `now` leaves the database `Settled`. */
  lemma SweepEffect(db: Database, now: int)
    ensures var ended := EndedAuctions(db.products, now);
      Run(db, SweepPlan(ended, db.bids), now) == Settled(db, ended, now)
  {
    var ended := EndedAuctions(db.products, now);
    var settle := Settlements(ended, db.bids);
    RunAppend(db, [SelectEndedAuctions] + settle, ReportQueries(ended), now);
    RunAppend(db, [SelectEndedAuctions], settle, now);
    assert [SelectEndedAuctions][..0] == [];
    ReportQueriesAreQueries(ended);
    RunQueries(Run(db, [SelectEndedAuctions] + settle, now), ReportQueries(ended), now);
    SettlementsEffect(db, ended, now);
  }

  // ---------------------------------------------------------------------
  // Products

  /** A sweep changes no product row except its status and buyer, and adds
      and removes none; an ended auction with a highest bid is sold to that
      bid's bidder. */
  lemma SweepSellsWon(db: Database, now: int)
    ensures var after := Settled(db, EndedAuctions(db.products, now), now).products;
      |after| == |db.products| &&
      (forall k :: 0 <= k < |db.products| ==> SameBesidesSale(after[k], db.products[k])) &&
      (forall k :: (0 <= k < |db.products| && IsEndedAuction(db.products[k], now) &&
                    HighestBid(db.bids, db.products[k].id).Some?) ==>
         after[k].status == Sold &&
         after[k].buyerId == Some(HighestBid(db.bids, db.products[k].id).value.bidderId))
  {
    var ended := EndedAuctions(db.products, now);
    forall k | 0 <= k < |db.products| && IsEndedAuction(db.products[k], now)
      ensures db.products[k].id in AuctionIds(ended)
    {
      assert db.products[k] in ended;
    }
  }

  /** With distinct product ids, every other row is left exactly as it was:
      rows that are not ended auctions, and ended auctions without bids,
      which stay available with no buyer. */
  lemma SweepKeepsOthers(db: Database, now: int)
    requires DistinctProductIds(db.products)
    ensures var after := Settled(db, EndedAuctions(db.products, now), now).products;
      forall k :: (0 <= k < |db.products| &&
                   (!IsEndedAuction(db.products[k], now) || HighestBid(db.bids, db.products[k].id).None?)) ==>
        after[k] == db.products[k]
  {
    var ended := EndedAuctions(db.products, now);
    forall k | 0 <= k < |db.products| && !IsEndedAuction(db.products[k], now)
      ensures db.products[k].id !in AuctionIds(ended)
    {
      forall a | a in ended ensures a.id != db.products[k].id {
        var j :| 0 <= j < |db.products| && db.products[j] == a;
      }
    }
  }

  // ---------------------------------------------------------------------
  // Purchases and notifications, per auction

  lemma {:induction false} PurchasesAreForSwept(auctions: seq<Product>, bids: seq<Bid>)
    ensures forall q :: q in Purchases(auctions, bids) ==> q.productId in AuctionIds(auctions)
  {
    if |auctions| > 0 {
      PurchasesAreForSwept(auctions[..|auctions| - 1], bids);
    }
  }

  lemma {:induction false} NoticesAreForSwept(auctions: seq<Product>, bids: seq<Bid>)
    ensures forall n :: n in Notices(auctions, bids) ==> n.data.productId in AuctionIds(auctions)
  {
    if |auctions| > 0 {
      NoticesAreForSwept(auctions[..|auctions| - 1], bids);
    }
  }

  /** With distinct ids, an auction is either the last one, and then no
      earlier auction shares its id, or one of the earlier ones. */
  lemma LastIsOnly(auctions: seq<Product>, a: Product)
    requires DistinctProductIds(auctions) && a in auctions
    ensures var init, last := auctions[..|auctions| - 1], auctions[|auctions| - 1];
      (last.id == a.id ==> last == a && a.id !in AuctionIds(init)) &&
      (last.id != a.id ==> a in init)
  {
    var init, last := auctions[..|auctions| - 1], auctions[|auctions| - 1];
    var j :| 0 <= j < |auctions| && auctions[j] == a;
    if last.id == a.id {
      assert j == |auctions| - 1;
      forall b | b in init ensures b.id != a.id {
        var i :| 0 <= i < |init| && init[i] == b;
        assert auctions[i] == b;
      }
    } else {
      assert init[j] == a;
    }
  }

  /** With distinct auction ids, the purchases a sweep writes for auction
      `a` are exactly its own: one for the winner, or none. */
  lemma {:induction false} PurchasesFor(auctions: seq<Product>, bids: seq<Bid>, a: Product)
    requires DistinctProductIds(auctions) && a in auctions
    ensures Filter(Purchases(auctions, bids), (q: PurchaseParams) => q.productId == a.id) ==
      PurchasesOf(a, HighestBid(bids, a.id))
  {
    var keep := (q: PurchaseParams) => q.productId == a.id;
    var init, last := auctions[..|auctions| - 1], auctions[|auctions| - 1];
    var own := PurchasesOf(last, HighestBid(bids, last.id));
    FilterAppend(Purchases(init, bids), own, keep);
    assert DistinctProductIds(init);
    if last.id == a.id {
      LastIsOnly(auctions, a);
      PurchasesAreForSwept(init, bids);
      FilterKeepsNone(Purchases(init, bids), keep);
      FilterKeepsAll(own, keep);
    } else {
      LastIsOnly(auctions, a);
      PurchasesFor(init, bids, a);
      FilterKeepsNone(own, keep);
    }
  }

  /** With distinct auction ids, the notifications a sweep writes about
      auction `a` are exactly its own: to the winner and to the seller, or
      the seller's "no bids" notice. */
  lemma {:induction false} NoticesFor(auctions: seq<Product>, bids: seq<Bid>, a: Product)
    requires DistinctProductIds(auctions) && a in auctions
    ensures Filter(Notices(auctions, bids), (n: NotificationParams) => n.data.productId == a.id) ==
      NoticesOf(a, HighestBid(bids, a.id))
  {
    var keep := (n: NotificationParams) => n.data.productId == a.id;
    var init, last := auctions[..|auctions| - 1], auctions[|auctions| - 1];
    var own := NoticesOf(last, HighestBid(bids, last.id));
    FilterAppend(Notices(init, bids), own, keep);
    assert DistinctProductIds(init);
    if last.id == a.id {
      LastIsOnly(auctions, a);
      NoticesAreForSwept(init, bids);
      FilterKeepsNone(Notices(init, bids), keep);
      FilterKeepsAll(own, keep);
    } else {
      LastIsOnly(auctions, a);
      NoticesFor(init, bids, a);
      FilterKeepsNone(own, keep);
    }
  }

  /** The rows a sweep appends are unread and carry the sweep's notices. */
  lemma NewNotificationsUnread(firstId: int, ps: seq<NotificationParams>, now: int)
    ensures var rows := NotificationRows(firstId, ps, now);
      |rows| == |ps| &&
      forall k :: 0 <= k < |ps| ==>
        !rows[k].isRead && NotificationParamsOf(rows[k]) == ps[k] && rows[k].id == firstId + k
  {
  }

  // ---------------------------------------------------------------------
  // A second sweep

  /** A sweep keeps product ids as they were. */
  lemma SweptKeepsIds(ps: seq<Product>, auctions: seq<Product>, bids: seq<Bid>)
    requires DistinctProductIds(ps)
    ensures DistinctProductIds(SweptRows(ps, auctions, bids))
  {
  }

  /** A product that an update sold, keeping every id, is not an ended
      auction of the updated rows under any id. */
  lemma SoldIsNotEnded(before: seq<Product>, after: seq<Product>, k: nat, now: int)
    requires DistinctProductIds(before) && |after| == |before| && k < |before|
    requires forall j :: 0 <= j < |before| ==> SameBesidesSale(after[j], before[j])
    requires after[k].status == Sold
    ensures before[k].id !in AuctionIds(EndedAuctions(after, now))
  {
    forall b | b in EndedAuctions(after, now) ensures b.id != before[k].id {
      var j :| 0 <= j < |after| && after[j] == b;
      if j != k {
        assert before[j].id != before[k].id;
      }
    }
  }

  /** A second sweep leaves an auction the first sweep sold alone: it is no
      longer among the ended auctions, so no purchase and no notice is
      written for it. */
  lemma SecondSweepSkipsSold(db: Database, now1: int, now2: int, a: Product)
    requires DistinctProductIds(db.products)
    requires a in EndedAuctions(db.products, now1) && HighestBid(db.bids, a.id).Some?
    ensures var db1 := Settled(db, EndedAuctions(db.products, now1), now1);
      var ended2 := EndedAuctions(db1.products, now2);
      a.id !in AuctionIds(ended2) &&
      Filter(Purchases(ended2, db1.bids), (q: PurchaseParams) => q.productId == a.id) == [] &&
      Filter(Notices(ended2, db1.bids), (n: NotificationParams) => n.data.productId == a.id) == []
  {
    var ended1 := EndedAuctions(db.products, now1);
    var db1 := Settled(db, ended1, now1);
    var ended2 := EndedAuctions(db1.products, now2);
    SweepSellsWon(db, now1);
    var k :| 0 <= k < |db.products| && db.products[k] == a;
    SoldIsNotEnded(db.products, db1.products, k, now2);
    PurchasesAreForSwept(ended2, db1.bids);
    NoticesAreForSwept(ended2, db1.bids);
    FilterKeepsNone(Purchases(ended2, db1.bids), (q: PurchaseParams) => q.productId == a.id);
    FilterKeepsNone(Notices(ended2, db1.bids), (n: NotificationParams) => n.data.productId == a.id);
  }

  /** An auction that ended without bids is still an ended auction at any
      later sweep, whose one notice about it is another "no bids" notice to
      its seller. */
  lemma SecondSweepRenotifies(db: Database, now1: int, now2: int, a: Product)
    requires DistinctProductIds(db.products) && now1 <= now2
    requires a in EndedAuctions(db.products, now1) && HighestBid(db.bids, a.id).None?
    ensures var db1 := Settled(db, EndedAuctions(db.products, now1), now1);
      var ended2 := EndedAuctions(db1.products, now2);
      db1.bids == db.bids && a in ended2 &&
      Filter(Notices(ended2, db1.bids), (n: NotificationParams) => n.data.productId == a.id) ==
        [NoBidsNotice(a)]
  {
    var ended1 := EndedAuctions(db.products, now1);
    var db1 := Settled(db, ended1, now1);
    var ended2 := EndedAuctions(db1.products, now2);
    SweepKeepsOthers(db, now1);
    SweptKeepsIds(db.products, ended1, db.bids);
    FilterKeepsDistinctIds(db1.products, (p: Product) => IsEndedAuction(p, now2));
    var k :| 0 <= k < |db.products| && db.products[k] == a;
    assert db1.products[k] == a;
    assert db1.products[k] in db1.products;
    NoticesFor(ended2, db1.bids, a);
  }


  // ---------------------------------------------------------------------
  // A sweep that fails

  /** Statements only append notifications and purchases, and a product,
      once sold, stays sold. */
  lemma {:induction false} RunOnlyAdds(db: Database, sts: seq<Statement>, now: int)
    ensures var r := Run(db, sts, now);
      db.notifications <= r.notifications && db.purchases <= r.purchases &&
      |r.products| == |db.products| &&
      forall k :: 0 <= k < |db.products| && db.products[k].status == Sold ==> r.products[k].status == Sold
  {
    if |sts| > 0 {
      RunOnlyAdds(db, sts[..|sts| - 1], now);
    }
  }

  /** When the store raises after the first `i` ended auctions have been
      settled, their purchases, notifications and sales remain. */
  lemma FailedSweepKeepsSettled(db: Database, now: int, failAt: nat, i: nat)
    requires DistinctProductIds(db.products)
    requires var ended := EndedAuctions(db.products, now);
      i <= |ended| && 1 + |Settlements(ended[..i], db.bids)| <= failAt <= |SweepPlan(ended, db.bids)|
    ensures var ended := EndedAuctions(db.products, now);
      var settled := Settled(db, ended[..i], now);
      var after := Run(db, SweepPlan(ended, db.bids)[..failAt], now);
      settled.notifications <= after.notifications && settled.purchases <= after.purchases &&
      |after.products| == |settled.products| &&
      forall k :: 0 <= k < |settled.products| && settled.products[k].status == Sold ==>
        after.products[k] == settled.products[k]
  {
    var ended := EndedAuctions(db.products, now);
    var plan := SweepPlan(ended, db.bids);
    var done := [SelectEndedAuctions] + Settlements(ended[..i], db.bids);
    var settled := Settled(db, ended[..i], now);
    PlanTailSellsOnly(ended, db.bids, i, failAt);
    RunThrough(db, done, plan, failAt, now);
    SettledAfterSelect(db, ended[..i], now);
    var rest := plan[|done|..failAt];
    RunOnlyAdds(settled, rest, now);
    RunKeepsUnsold(settled, rest, AuctionIds(ended[i..]), now);
    SweptSoldNotLater(db.products, db.bids, now, i);
  }

  /** Only the auctions in `ids` are sold by `sts`. */
  predicate SellsOnly(sts: seq<Statement>, ids: set<int>) {
    forall k :: 0 <= k < |sts| && sts[k].MarkAuctionAsSold? ==> sts[k].productId in ids
  }

  /** Statements that sell only products in `ids` leave every other product
      row as it was. */
  lemma {:induction false} RunKeepsUnsold(db: Database, sts: seq<Statement>, ids: set<int>, now: int)
    requires SellsOnly(sts, ids)
    ensures var r := Run(db, sts, now);
      |r.products| == |db.products| &&
      forall k :: 0 <= k < |db.products| && db.products[k].id !in ids ==> r.products[k] == db.products[k]
  {
    if |sts| > 0 {
      RunKeepsUnsold(db, sts[..|sts| - 1], ids, now);
    }
  }

  lemma SellsOnlyAppend(xs: seq<Statement>, ys: seq<Statement>, ids: set<int>)
    requires SellsOnly(xs, ids) && SellsOnly(ys, ids)
    ensures SellsOnly(xs + ys, ids)
  {
    forall k | 0 <= k < |xs + ys| && (xs + ys)[k].MarkAuctionAsSold? ensures (xs + ys)[k].productId in ids {
      if k >= |xs| {
        assert (xs + ys)[k] == ys[k - |xs|];
      }
    }
  }

  /** The auctions from position `i` on, with one more auction appended. */
  lemma AuctionIdsSnoc(auctions: seq<Product>, i: nat)
    requires i < |auctions|
    ensures var n := |auctions|;
      AuctionIds(auctions[..n - 1][i..]) + {auctions[n - 1].id} == AuctionIds(auctions[i..])
  {
    var n := |auctions|;
    assert auctions[i..] == auctions[..n - 1][i..] + [auctions[n - 1]];
    assert auctions[i..][..n - 1 - i] == auctions[..n - 1][i..];
  }

  /** The statements settling one auction sell at most that auction. */
  lemma SettlementSellsOnly(a: Product, highest: Option<Bid>, ids: set<int>)
    requires a.id in ids
    ensures SellsOnly(Settlement(a, highest), ids)
  {
  }

  /** Selling only within `ids` is kept when `ids` grows. */
  lemma SellsOnlyWithin(sts: seq<Statement>, ids: set<int>, more: set<int>)
    requires SellsOnly(sts, ids) && ids <= more
    ensures SellsOnly(sts, more)
  {
  }

  /** Dropping the first `h` statements of a sequence and then appending
      commutes. */
  lemma DropAppend(xs: seq<Statement>, ys: seq<Statement>, h: nat)
    requires h <= |xs|
    ensures (xs + ys)[h..] == xs[h..] + ys
  {
  }

  /** Past the settlements of the first `i` auctions, the sweep sells only
      auctions from position `i` on. */
  lemma {:induction false} LaterSellsOnly(auctions: seq<Product>, bids: seq<Bid>, i: nat)
    requires i <= |auctions|
    ensures var all := Settlements(auctions, bids);
      var h := |Settlements(auctions[..i], bids)|;
      h <= |all| && SellsOnly(all[h..], AuctionIds(auctions[i..]))
  {
    SettlementsPrefix(auctions, bids, i);
    if i < |auctions| {
      var n := |auctions|;
      var init, last := auctions[..n - 1], auctions[n - 1];
      var h := |Settlements(auctions[..i], bids)|;
      var before := Settlements(init, bids);
      var own := Settlement(last, HighestBid(bids, last.id));
      var ids := AuctionIds(auctions[i..]);
      assert h <= |before| && SellsOnly(before[h..], ids) by {
        assert init[..i] == auctions[..i];
        LaterSellsOnly(init, bids, i);
        AuctionIdsSnoc(auctions, i);
        SellsOnlyWithin(before[h..], AuctionIds(init[i..]), ids);
      }
      assert SellsOnly(own, ids) by {
        SettlementSellsOnly(last, HighestBid(bids, last.id), ids);
      }
      assert SellsOnly(before[h..] + own, ids) by {
        SellsOnlyAppend(before[h..], own, ids);
      }
      assert Settlements(auctions, bids)[h..] == before[h..] + own by {
        assert Settlements(auctions, bids) == before + own;
        DropAppend(before, own, h);
      }
    } else {
      assert auctions[..i] == auctions;
    }
  }

  /** The statements of a sweep after the first `i` settlements, up to any
      failure position, sell only auctions from position `i` on. */
  lemma PlanTailSellsOnly(ended: seq<Product>, bids: seq<Bid>, i: nat, failAt: nat)
    requires i <= |ended| && 1 + |Settlements(ended[..i], bids)| <= failAt <= |SweepPlan(ended, bids)|
    ensures var plan := SweepPlan(ended, bids);
      var done := [SelectEndedAuctions] + Settlements(ended[..i], bids);
      plan[..|done|] == done && SellsOnly(plan[|done|..failAt], AuctionIds(ended[i..]))
  {
    var all := Settlements(ended, bids);
    var head := Settlements(ended[..i], bids);
    var later := AuctionIds(ended[i..]);
    assert |head| <= |all| && all[..|head|] == head by {
      SettlementsPrefix(ended, bids, i);
    }
    assert SellsOnly(all[|head|..], later) by {
      LaterSellsOnly(ended, bids, i);
    }
    assert SellsOnly(ReportQueries(ended), later) by {
      ReportQueriesAreQueries(ended);
    }
    PlanSlice(all, |head|, ReportQueries(ended), later, failAt);
  }

  /** In a plan `[SelectEndedAuctions] + all + rest`, the part after the first
      `h` statements of `all` sells only what that part of `all` and `rest`
      sell. */
  lemma PlanSlice(all: seq<Statement>, h: nat, rest: seq<Statement>, ids: set<int>, n: nat)
    requires h <= |all| && 1 + h <= n <= 1 + |all| + |rest|
    requires SellsOnly(all[h..], ids) && SellsOnly(rest, ids)
    ensures var plan := [SelectEndedAuctions] + all + rest;
      plan[..1 + h] == [SelectEndedAuctions] + all[..h] && SellsOnly(plan[1 + h..n], ids)
  {
    var front := [SelectEndedAuctions] + all;
    var plan := front + rest;
    assert front[1 + h..] == all[h..];
    SellsOnlyAppend(all[h..], rest, ids);
    DropAppend(front, rest, 1 + h);
    SellsOnlySlice(plan[1 + h..], n - 1 - h, ids);
    assert plan[1 + h..][..n - 1 - h] == plan[1 + h..n];
  }

  /** Selling only within `ids` is kept by every prefix. */
  lemma SellsOnlySlice(sts: seq<Statement>, n: nat, ids: set<int>)
    requires SellsOnly(sts, ids) && n <= |sts|
    ensures SellsOnly(sts[..n], ids)
  {
    forall k | 0 <= k < n && sts[..n][k].MarkAuctionAsSold? ensures sts[..n][k].productId in ids {
      assert sts[..n][k] == sts[k];
    }
  }

  /** With distinct ids, an id among the first `i` auctions is none of the
      later ones. */
  lemma DistinctIdsSplit(s: seq<Product>, i: nat, id: int)
    requires DistinctProductIds(s) && i <= |s| && id in AuctionIds(s[..i])
    ensures id !in AuctionIds(s[i..])
  {
    var b :| b in s[..i] && b.id == id;
    var m :| 0 <= m < i && s[..i][m] == b;
    forall a | a in s[i..] ensures a.id != id {
      var j :| 0 <= j < |s[i..]| && s[i..][j] == a;
      assert s[i + j] == a && s[m] == b;
    }
  }

  /** With distinct ids, a row that is not an ended auction has the id of no
      ended auction. */
  lemma NotEndedNotLater(ps: seq<Product>, now: int, i: nat, k: nat)
    requires DistinctProductIds(ps) && k < |ps| && !IsEndedAuction(ps[k], now)
    requires i <= |EndedAuctions(ps, now)|
    ensures ps[k].id !in AuctionIds(EndedAuctions(ps, now)[i..])
  {
    var ended := EndedAuctions(ps, now);
    forall a | a in ended[i..] ensures a.id != ps[k].id {
      var j :| 0 <= j < |ended[i..]| && ended[i..][j] == a;
      assert ended[i + j] == a;
      assert a in ps && IsEndedAuction(a, now);
      var r :| 0 <= r < |ps| && ps[r] == a;
      assert r != k;
    }
  }

  /** A product row that the settlement of the first `i` ended auctions sold
      is none of the later ended auctions, and keeps its id. */
  lemma SweptSoldNotLater(ps: seq<Product>, bids: seq<Bid>, now: int, i: nat)
    requires DistinctProductIds(ps)
    requires i <= |EndedAuctions(ps, now)|
    ensures var ended := EndedAuctions(ps, now);
      var swept := SweptRows(ps, ended[..i], bids);
      forall k :: 0 <= k < |ps| && swept[k].status == Sold ==>
        swept[k].id == ps[k].id && ps[k].id !in AuctionIds(ended[i..])
  {
    var ended := EndedAuctions(ps, now);
    var swept := SweptRows(ps, ended[..i], bids);
    forall k | 0 <= k < |ps| && swept[k].status == Sold
      ensures ps[k].id !in AuctionIds(ended[i..])
    {
      if ps[k].status == Available {
        assert ps[k].id in AuctionIds(ended[..i]);
        FilterKeepsDistinctIds(ps, (p: Product) => IsEndedAuction(p, now));
        DistinctIdsSplit(ended, i, ps[k].id);
      } else {
        NotEndedNotLater(ps, now, i, k);
      }
    }
  }

  /** Running a prefix of `plan` that extends `done`. */
  lemma RunThrough(db: Database, done: seq<Statement>, plan: seq<Statement>, f: nat, now: int)
    requires |done| <= f <= |plan| && plan[..|done|] == done
    ensures Run(db, plan[..f], now) == Run(Run(db, done, now), plan[|done|..f], now)
  {
    assert plan[..f] == done + plan[|done|..f];
    RunAppend(db, done, plan[|done|..f], now);
  }

  lemma SettledAfterSelect(db: Database, auctions: seq<Product>, now: int)
    ensures Run(db, [SelectEndedAuctions] + Settlements(auctions, db.bids), now) == Settled(db, auctions, now)
  {
    RunAppend(db, [SelectEndedAuctions], Settlements(auctions, db.bids), now);
    assert [SelectEndedAuctions][..0] == [];
    SettlementsEffect(db, auctions, now);
  }
}
