/** What the prepared statements of app/lib/db.ts compute over table rows.
    Queries are functions from the rows to a result sequence; the UPDATE and
    DELETE statements are functions from the old rows to the new rows, which
    the `Db.Store` methods apply. A table is a sequence in rowid order. */
module DbRows {
  import opened Wrappers
  import opened Records

  // ---------------------------------------------------------------------
  // WHERE clauses

  /** The rows of `s` that satisfy `keep`, in table order. */
  function Filter<T(==,!new)>(s: seq<T>, keep: T -> bool): (r: seq<T>)
    ensures |r| <= |s|
    ensures forall x :: x in r <==> x in s && keep(x)
  {
    if |s| == 0 then []
    else (if keep(s[0]) then [s[0]] else []) + Filter(s[1..], keep)
  }

  lemma {:induction false} FilterAppend<T(!new)>(a: seq<T>, b: seq<T>, keep: T -> bool)
    ensures Filter(a + b, keep) == Filter(a, keep) + Filter(b, keep)
  {
    if |a| == 0 {
      assert a + b == b;
    } else {
      assert (a + b)[1..] == a[1..] + b;
      FilterAppend(a[1..], b, keep);
    }
  }

  /** A WHERE clause that every row passes returns the whole table. */
  lemma {:induction false} FilterKeepsAll<T(!new)>(s: seq<T>, keep: T -> bool)
    requires forall x :: x in s ==> keep(x)
    ensures Filter(s, keep) == s
  {
    if |s| > 0 {
      assert forall x :: x in s[1..] ==> x in s;
      FilterKeepsAll(s[1..], keep);
    }
  }

  /** A WHERE clause that no row passes returns nothing. */
  lemma {:induction false} FilterKeepsNone<T(!new)>(s: seq<T>, keep: T -> bool)
    requires forall x :: x in s ==> !keep(x)
    ensures Filter(s, keep) == []
  {
    if |s| > 0 {
      assert forall x :: x in s[1..] ==> x in s;
      FilterKeepsNone(s[1..], keep);
    }
  }

  /** Selecting rows of a table whose ids are distinct keeps them distinct. */
  lemma {:induction false} FilterKeepsDistinctIds(ps: seq<Product>, keep: Product -> bool)
    requires DistinctProductIds(ps)
    ensures DistinctProductIds(Filter(ps, keep))
  {
    if |ps| > 0 {
      var rest := Filter(ps[1..], keep);
      FilterKeepsDistinctIds(ps[1..], keep);
      forall x | x in rest ensures x.id != ps[0].id {
        var j :| 0 <= j < |ps[1..]| && ps[1..][j] == x;
        assert ps[j + 1] == x;
      }
    }
  }

  /** The rows of `ps` that satisfy `keep`, newest row first: the model of
      `ORDER BY created_at DESC` over rows whose `created_at` is their
      insertion time (rowid descending). */
  function NewestFirst(ps: seq<Product>, keep: Product -> bool): (r: seq<Product>)
    ensures forall p :: p in r <==> p in ps && keep(p)
  {
    if |ps| == 0 then []
    else
      var last := ps[|ps| - 1];
      assert forall p :: p in ps <==> p == last || p in ps[..|ps| - 1] by {
        assert ps == ps[..|ps| - 1] + [last];
      }
      (if keep(last) then [last] else []) + NewestFirst(ps[..|ps| - 1], keep)
  }

  ghost predicate NewestCreatedFirst(s: seq<Product>) {
    forall i, j :: 0 <= i < j < |s| ==> s[i].createdAt >= s[j].createdAt
  }

  /** When rows were inserted with a clock that never goes back, newest-first
      is indeed descending `created_at`. */
  lemma {:induction false} NewestFirstIsByCreationDesc(ps: seq<Product>, keep: Product -> bool)
    requires forall i, j :: 0 <= i < j < |ps| ==> ps[i].createdAt <= ps[j].createdAt
    ensures NewestCreatedFirst(NewestFirst(ps, keep))
  {
    if |ps| > 0 {
      var last := ps[|ps| - 1];
      var init := ps[..|ps| - 1];
      var head := if keep(last) then [last] else [];
      var rest := NewestFirst(init, keep);
      var r := NewestFirst(ps, keep);
      assert r == head + rest;
      NewestFirstIsByCreationDesc(init, keep);
      forall p | p in rest ensures p.createdAt <= last.createdAt {
        var k :| 0 <= k < |init| && init[k] == p;
      }
      if keep(last) {
        PrependNewest(last, rest);
      } else {
        assert r == rest;
      }
    }
  }

  /** A row no older than any row of a newest-first sequence can go in front. */
  lemma PrependNewest(x: Product, rest: seq<Product>)
    requires NewestCreatedFirst(rest)
    requires forall p :: p in rest ==> p.createdAt <= x.createdAt
    ensures NewestCreatedFirst([x] + rest)
  {
    var r := [x] + rest;
    forall i, j | 0 <= i < j < |r| ensures r[i].createdAt >= r[j].createdAt {
      assert r[j] == rest[j - 1];
      if i > 0 {
        assert r[i] == rest[i - 1];
      } else {
        assert rest[j - 1] in rest;
      }
    }
  }

  // ---------------------------------------------------------------------
  // Bids: getBidsByProductId and getHighestBid

  /** `b` comes no later than `c` under ORDER BY amount DESC, created_at ASC. */
  predicate Outranks(b: Bid, c: Bid) {
    b.amount > c.amount || (b.amount == c.amount && b.createdAt <= c.createdAt)
  }

  ghost predicate Ranked(s: seq<Bid>) {
    forall i, j :: 0 <= i < j < |s| ==> Outranks(s[i], s[j])
  }

  function OfProduct(productId: int): Bid -> bool {
    (b: Bid) => b.productId == productId
  }

  /** The bids of one product (WHERE b.product_id = ?). */
  function ProductBids(bids: seq<Bid>, productId: int): (r: seq<Bid>)
    ensures forall b :: b in r <==> b in bids && b.productId == productId
  {
    Filter(bids, OfProduct(productId))
  }

  /** A bid that ranks at least as high as every bid of a ranked sequence
      can be put in front of it. */
  lemma RankedCons(b: Bid, s: seq<Bid>)
    requires Ranked(s)
    requires forall x :: x in s ==> Outranks(b, x)
    ensures Ranked([b] + s)
  {
    forall i, j | 0 <= i < j < |[b] + s| ensures Outranks(([b] + s)[i], ([b] + s)[j]) {
      assert ([b] + s)[j] == s[j - 1];
      if i > 0 {
        assert ([b] + s)[i] == s[i - 1];
      } else {
        assert s[j - 1] in s;
      }
    }
  }

  /** A bid that outranks the head of a ranked sequence outranks all of it. */
  lemma HeadOutranksAll(b: Bid, s: seq<Bid>)
    requires Ranked(s) && (|s| > 0 ==> Outranks(b, s[0]))
    ensures forall x :: x in s ==> Outranks(b, x)
  {
    forall x | x in s ensures Outranks(b, x) {
      var k :| 0 <= k < |s| && s[k] == x;
      if k > 0 { assert Outranks(s[0], s[k]); }
    }
  }

  /** The head of a ranked sequence outranks the rest of it with any bid it
      outranks added. */
  lemma HeadOutranksInserted(b: Bid, s: seq<Bid>, tail: seq<Bid>)
    requires Ranked(s) && |s| > 0 && Outranks(s[0], b)
    requires multiset(tail) == multiset(s[1..]) + multiset{b}
    ensures forall x :: x in tail ==> Outranks(s[0], x)
  {
    forall x | x in tail ensures Outranks(s[0], x) {
      assert x in multiset(tail);
      if x != b {
        assert x in multiset(s[1..]);
        var k :| 0 <= k < |s[1..]| && s[1..][k] == x;
        assert s[k + 1] == x;
      }
    }
  }

  /** Places `b` after every bid that ranks at least as high as it, so bids
      that tie on amount and time keep their table order. */
  function InsertByRank(b: Bid, s: seq<Bid>): (r: seq<Bid>)
    requires Ranked(s)
    ensures multiset(r) == multiset(s) + multiset{b}
    ensures Ranked(r)
  {
    if |s| == 0 then [b]
    else if Outranks(s[0], b) then
      var tail := InsertByRank(b, s[1..]);
      assert s == [s[0]] + s[1..];
      HeadOutranksInserted(b, s, tail);
      RankedCons(s[0], tail);
      [s[0]] + tail
    else
      HeadOutranksAll(b, s);
      RankedCons(b, s);
      [b] + s
  }

  /** Insertion sort by rank. */
  function SortByRank(s: seq<Bid>): (r: seq<Bid>)
    ensures |r| == |s|
    ensures multiset(r) == multiset(s)
    ensures Ranked(r)
  {
    if |s| == 0 then []
    else
      assert s == s[..|s| - 1] + [s[|s| - 1]];
      var r := InsertByRank(s[|s| - 1], SortByRank(s[..|s| - 1]));
      assert |r| == |multiset(r)|;
      r
  }

  /** getBidsByProductId: all bids of the product, ranked. */
  function BidsByProduct(bids: seq<Bid>, productId: int): (r: seq<Bid>)
    ensures Ranked(r)
    ensures multiset(r) == multiset(ProductBids(bids, productId))
    ensures forall b :: b in r <==> b in bids && b.productId == productId
  {
    var own := ProductBids(bids, productId);
    var r := SortByRank(own);
    assert forall b :: b in r <==> b in own by {
      forall b ensures b in r <==> b in own {
        assert b in r <==> b in multiset(r);
      }
    }
    r
  }

  /** `b` is a highest bid of the product: no bid of it has a larger amount,
      and none with the same amount is older. */
  ghost predicate IsHighest(bids: seq<Bid>, productId: int, b: Bid) {
    b in bids && b.productId == productId &&
    forall c :: c in bids && c.productId == productId ==> Outranks(b, c)
  }

  /** The first row of getBidsByProductId is a highest bid. */
  lemma FirstRankedIsHighest(bids: seq<Bid>, productId: int)
    requires |BidsByProduct(bids, productId)| > 0
    ensures IsHighest(bids, productId, BidsByProduct(bids, productId)[0])
  {
    var r := BidsByProduct(bids, productId);
    forall c | c in bids && c.productId == productId ensures Outranks(r[0], c) {
      var k :| 0 <= k < |r| && r[k] == c;
    }
  }

  /** getHighestBid, read as one pass over the bids table in rowid order
      that keeps the bid that comes first under the ORDER BY; among bids
      that tie on amount and time the earlier row is kept. */
  function HighestBid(bids: seq<Bid>, productId: int): Option<Bid> {
    if |bids| == 0 then None
    else
      var best := HighestBid(bids[..|bids| - 1], productId);
      var b := bids[|bids| - 1];
      if b.productId != productId then best
      else if best.Some? && Outranks(best.value, b) then best
      else Some(b)
  }

  /** The first row of a ranked sequence with one more bid inserted. */
  lemma {:induction false} InsertByRankHead(b: Bid, s: seq<Bid>)
    requires Ranked(s)
    ensures InsertByRank(b, s)[0] == if |s| > 0 && Outranks(s[0], b) then s[0] else b
  {
  }

  /** The scan returns what LIMIT 1 returns: the first row of
      getBidsByProductId's ORDER BY amount DESC, created_at ASC. */
  lemma {:induction false} HighestBidIsFirstRanked(bids: seq<Bid>, productId: int)
    ensures var ranked := BidsByProduct(bids, productId);
      HighestBid(bids, productId) == if |ranked| == 0 then None else Some(ranked[0])
  {
    if |bids| > 0 {
      var init, b := bids[..|bids| - 1], bids[|bids| - 1];
      HighestBidIsFirstRanked(init, productId);
      ProductBidsSnoc(bids, productId);
      var own := ProductBids(init, productId);
      var sorted := SortByRank(own);
      assert BidsByProduct(init, productId) == sorted;
      var best := HighestBid(init, productId);
      assert best == if |sorted| == 0 then None else Some(sorted[0]);
      if b.productId == productId {
        var t := own + [b];
        assert ProductBids(bids, productId) == t;
        assert t[..|t| - 1] == own && t[|t| - 1] == b;
        assert BidsByProduct(bids, productId) == InsertByRank(b, sorted);
        InsertByRankHead(b, sorted);
      } else {
        assert ProductBids(bids, productId) == own;
        assert BidsByProduct(bids, productId) == sorted;
      }
    }
  }

  lemma ProductBidsSnoc(bids: seq<Bid>, productId: int)
    requires |bids| > 0
    ensures var b := bids[|bids| - 1];
      ProductBids(bids, productId) ==
        ProductBids(bids[..|bids| - 1], productId) + if b.productId == productId then [b] else []
  {
    var init, b := bids[..|bids| - 1], bids[|bids| - 1];
    assert bids == init + [b];
    FilterAppend(init, [b], OfProduct(productId));
    assert [b][1..] == [];
  }

  /** getHighestBid finds nothing exactly when the product has no bid, and
      otherwise a highest bid. */
  lemma HighestBidIsHighest(bids: seq<Bid>, productId: int)
    ensures var r := HighestBid(bids, productId);
      (r.None? <==> forall c :: c in bids ==> c.productId != productId) &&
      (r.Some? ==> IsHighest(bids, productId, r.value))
  {
    HighestBidIsFirstRanked(bids, productId);
    var ranked := BidsByProduct(bids, productId);
    if |ranked| > 0 {
      FirstRankedIsHighest(bids, productId);
    }
  }

  /** Two highest bids differ at most in the columns the ORDER BY does not
      look at: which of them SQLite returns is left open by the query. */
  lemma HighestIsUniqueUpToTies(bids: seq<Bid>, productId: int, b: Bid, c: Bid)
    requires IsHighest(bids, productId, b) && IsHighest(bids, productId, c)
    ensures b.amount == c.amount && b.createdAt == c.createdAt
  {
    assert Outranks(b, c) && Outranks(c, b);
  }

  // ---------------------------------------------------------------------
  // Products: getAllProducts, getEndedAuctions, getActiveAuctions

  predicate IsEndedAuction(p: Product, now: int) {
    p.listingType == AuctionListing && p.status == Available &&
    p.auctionEnd.Some? && p.auctionEnd.value <= now
  }

  predicate IsActiveAuction(p: Product, now: int) {
    p.listingType == AuctionListing && p.status == Available &&
    p.auctionEnd.Some? && p.auctionEnd.value > now
  }

  /** getEndedAuctions (no ORDER BY: table order). */
  function EndedAuctions(ps: seq<Product>, now: int): (r: seq<Product>)
    ensures forall p :: p in r <==> p in ps && IsEndedAuction(p, now)
  {
    Filter(ps, (p: Product) => IsEndedAuction(p, now))
  }

  /** getActiveAuctions, newest first. */
  function ActiveAuctions(ps: seq<Product>, now: int): (r: seq<Product>)
    ensures forall p :: p in r <==> p in ps && IsActiveAuction(p, now)
  {
    NewestFirst(ps, (p: Product) => IsActiveAuction(p, now))
  }

  /** getAllProducts: every product still for sale, newest first. */
  function AllProducts(ps: seq<Product>): (r: seq<Product>)
    ensures forall p :: p in r <==> p in ps && p.status == Available
  {
    NewestFirst(ps, (p: Product) => p.status == Available)
  }

  /** An available auction with an end time is either ended or active at any
      instant, never both; without an end time it is neither. */
  lemma EndedActivePartition(ps: seq<Product>, now: int, p: Product)
    requires p in ps && p.listingType == AuctionListing && p.status == Available
    ensures p.auctionEnd.Some? ==>
      (p in EndedAuctions(ps, now) <==> p !in ActiveAuctions(ps, now))
    ensures p.auctionEnd.None? ==>
      p !in EndedAuctions(ps, now) && p !in ActiveAuctions(ps, now)
  {
  }

  // ---------------------------------------------------------------------
  // UPDATE products

  /** markAuctionAsSold / markProductAsSold (the same UPDATE): every row with
      the id gets status 'sold' and the buyer. */
  function MarkSold(ps: seq<Product>, buyerId: int, id: int): seq<Product> {
    seq(|ps|, k requires 0 <= k < |ps| =>
      if ps[k].id == id then ps[k].(status := Sold, buyerId := Some(buyerId)) else ps[k])
  }

  /** `q` is `p` with at most its status and buyer changed. */
  predicate SameBesidesSale(q: Product, p: Product) {
    q == p.(status := q.status, buyerId := q.buyerId)
  }

  lemma MarkSoldEffect(ps: seq<Product>, buyerId: int, id: int, now: int)
    ensures var r := MarkSold(ps, buyerId, id);
      |r| == |ps| &&
      (forall k :: 0 <= k < |ps| ==> SameBesidesSale(r[k], ps[k])) &&
      (forall k :: 0 <= k < |ps| && ps[k].id == id ==> r[k].status == Sold && r[k].buyerId == Some(buyerId)) &&
      (forall k :: 0 <= k < |ps| && ps[k].id != id ==> r[k] == ps[k]) &&
      (forall p :: p in AllProducts(r) ==> p.id != id) &&
      (forall p :: p in EndedAuctions(r, now) ==> p.id != id)
  {
    var r := MarkSold(ps, buyerId, id);
    forall p | p in r && p.status == Available ensures p.id != id {
      var k :| 0 <= k < |r| && r[k] == p;
    }
  }

  /** updateProductCurrentBid: overwrites current_bid of the rows with the id,
      whatever the amount. */
  function SetCurrentBid(ps: seq<Product>, amount: real, id: int): seq<Product> {
    seq(|ps|, k requires 0 <= k < |ps| =>
      if ps[k].id == id then ps[k].(currentBid := Some(amount)) else ps[k])
  }

  // ---------------------------------------------------------------------
  // DELETE FROM products WHERE id = ? AND seller_id = ?

  /** The rows deleteProduct removes. */
  predicate IsDeletedBy(p: Product, id: int, sellerId: int) {
    p.id == id && p.sellerId == sellerId
  }

  function DeleteRows(ps: seq<Product>, id: int, sellerId: int): (r: seq<Product>)
    ensures forall p :: p in r <==> p in ps && !IsDeletedBy(p, id, sellerId)
  {
    Filter(ps, (p: Product) => !IsDeletedBy(p, id, sellerId))
  }

  /** Another seller's id leaves the table as it was. */
  lemma DeleteByOtherSellerKeepsAll(ps: seq<Product>, id: int, sellerId: int)
    requires forall p :: p in ps && p.id == id ==> p.sellerId != sellerId
    ensures DeleteRows(ps, id, sellerId) == ps
  {
    FilterKeepsAll(ps, (p: Product) => !IsDeletedBy(p, id, sellerId));
  }

  // ---------------------------------------------------------------------
  // Notifications: markNotificationAsRead and getUnreadNotificationCount

  function MarkRead(ns: seq<Notification>, id: int): seq<Notification> {
    seq(|ns|, k requires 0 <= k < |ns| =>
      if ns[k].id == id then ns[k].(isRead := true) else ns[k])
  }

  predicate IsUnreadFor(n: Notification, userId: int) {
    n.userId == userId && !n.isRead
  }

  /** SELECT COUNT(*) ... WHERE user_id = ? AND is_read = 0 */
  function UnreadCount(ns: seq<Notification>, userId: int): nat {
    |Filter(ns, (n: Notification) => IsUnreadFor(n, userId))|
  }

  lemma MarkReadIdempotent(ns: seq<Notification>, id: int)
    ensures MarkRead(MarkRead(ns, id), id) == MarkRead(ns, id)
  {
  }

  /** Marking a notification read lowers each user's unread count by the
      number of that user's unread rows carrying the id. */
  lemma {:induction false} MarkReadLowersCount(ns: seq<Notification>, id: int, userId: int)
    ensures UnreadCount(MarkRead(ns, id), userId) ==
      UnreadCount(ns, userId) - |Filter(ns, (n: Notification) => n.id == id && IsUnreadFor(n, userId))|
  {
    if |ns| > 0 {
      assert MarkRead(ns, id)[1..] == MarkRead(ns[1..], id);
      MarkReadLowersCount(ns[1..], id, userId);
    }
  }

  /** A WHERE clause that exactly one row passes returns one row. */
  lemma {:induction false} FilterSingle<T(!new)>(s: seq<T>, k: nat, keep: T -> bool)
    requires k < |s| && keep(s[k])
    requires forall i :: 0 <= i < |s| && i != k ==> !keep(s[i])
    ensures |Filter(s, keep)| == 1
  {
    if k == 0 {
      forall x | x in s[1..] ensures !keep(x) {
        var i :| 0 <= i < |s[1..]| && s[1..][i] == x;
        assert s[i + 1] == x;
      }
      FilterKeepsNone(s[1..], keep);
    } else {
      FilterSingle(s[1..], k - 1, keep);
    }
  }

  /** With distinct ids: marking one of the user's unread notifications lowers
      the count by exactly one; any other id leaves it unchanged. */
  lemma MarkReadCountOne(ns: seq<Notification>, id: int, userId: int)
    requires DistinctNotificationIds(ns)
    ensures (exists n :: n in ns && n.id == id && IsUnreadFor(n, userId)) ==>
      UnreadCount(MarkRead(ns, id), userId) == UnreadCount(ns, userId) - 1
    ensures (forall n :: n in ns && n.id == id ==> !IsUnreadFor(n, userId)) ==>
      UnreadCount(MarkRead(ns, id), userId) == UnreadCount(ns, userId)
  {
    MarkReadLowersCount(ns, id, userId);
    var own := (n: Notification) => n.id == id && IsUnreadFor(n, userId);
    if exists n :: n in ns && n.id == id && IsUnreadFor(n, userId) {
      var n :| n in ns && n.id == id && IsUnreadFor(n, userId);
      var k :| 0 <= k < |ns| && ns[k] == n;
      FilterSingle(ns, k, own);
    } else {
      FilterKeepsNone(ns, own);
    }
  }
}
