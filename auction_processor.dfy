/** The settlement sweep of app/lib/auction-processor.ts.

    The sweep issues store statements one after another with no transaction
    around them. The model names those statements (`Statement`), gives their
    effect on a database snapshot (`Exec`, `Run`), and lists the statements a
    sweep issues for a given list of ended auctions (`SweepPlan`). The method
    `ProcessEndedAuctions` is proved to issue exactly that plan. A store
    failure is a parameter: `failAt` is the position, in that plan, of the
    statement that raises; the sweep then stops and reports the error, and
    every statement before it stays applied. */
module AuctionProcessor {
  import opened Wrappers
  import opened Records
  import opened DbRows
  import opened Db

  /** The store statements a sweep issues. */
  datatype Statement =
    | SelectEndedAuctions
    | SelectHighestBid(productId: int)
    | MarkAuctionAsSold(buyerId: int, productId: int)
    | InsertPurchase(purchase: PurchaseParams)
    | InsertNotification(notification: NotificationParams)

  /** The effect of one statement; the two queries change nothing. */
  function Exec(db: Database, st: Statement, now: int): Database {
    match st
    case SelectEndedAuctions => db
    case SelectHighestBid(_) => db
    case MarkAuctionAsSold(buyerId, id) =>
      db.(products := MarkSold(db.products, buyerId, id))
    case InsertPurchase(p) =>
      db.(purchases := db.purchases + [NewPurchaseRow(db.nextPurchaseId, p, now)],
          nextPurchaseId := db.nextPurchaseId + 1)
    case InsertNotification(p) =>
      db.(notifications := db.notifications + [NewNotificationRow(db.nextNotificationId, p, now)],
          nextNotificationId := db.nextNotificationId + 1)
  }

  /** The effect of a sequence of statements, in order. */
  function Run(db: Database, sts: seq<Statement>, now: int): Database
  {
    if |sts| == 0 then db
    else Exec(Run(db, sts[..|sts| - 1], now), sts[|sts| - 1], now)
  }

  lemma RunSnoc(db: Database, sts: seq<Statement>, st: Statement, now: int)
    ensures Run(db, sts + [st], now) == Exec(Run(db, sts, now), st, now)
  {
    assert (sts + [st])[..|sts|] == sts;
  }

  /** Running one more statement of `sts`. */
  lemma RunStep(db: Database, sts: seq<Statement>, k: nat, now: int)
    requires k < |sts|
    ensures Run(db, sts[..k + 1], now) == Exec(Run(db, sts[..k], now), sts[k], now)
  {
    assert sts[..k + 1] == sts[..k] + [sts[k]];
    RunSnoc(db, sts[..k], sts[k], now);
  }

  lemma {:induction false} RunAppend(db: Database, xs: seq<Statement>, ys: seq<Statement>, now: int)
    ensures Run(db, xs + ys, now) == Run(Run(db, xs, now), ys, now)
  {
    if |ys| > 0 {
      var init := ys[..|ys| - 1];
      assert xs + ys == (xs + init) + [ys[|ys| - 1]];
      assert ys == init + [ys[|ys| - 1]];
      RunSnoc(db, xs + init, ys[|ys| - 1], now);
      RunSnoc(Run(db, xs, now), init, ys[|ys| - 1], now);
      RunAppend(db, xs, init, now);
    } else {
      assert xs + ys == xs;
    }
  }

  const AuctionWon: string := "auction_won"
  const AuctionEnded: string := "auction_ended"
  const AuctionNoBids: string := "auction_no_bids"

  /** The purchase row recorded for the winner of auction `a`. */
  function WinnerPurchase(a: Product, w: Bid): PurchaseParams {
    PurchaseParams(a.id, w.bidderId, "auction_winner", "auction")
  }

  /** The notification to the winner. */
  function WonNotice(a: Product, w: Bid): NotificationParams {
    NotificationParams(w.bidderId, AuctionWon, WonPayload(a.id, a.name, w.amount, a.sellerId))
  }

  /** The notification to the seller of a won auction. */
  function EndedNotice(a: Product, w: Bid): NotificationParams {
    NotificationParams(a.sellerId, AuctionEnded, EndedPayload(a.id, a.name, w.amount, w.bidderId))
  }

  /** The notification to the seller of an auction without bids. */
  function NoBidsNotice(a: Product): NotificationParams {
    NotificationParams(a.sellerId, AuctionNoBids, NoBidsPayload(a.id, a.name))
  }

  /** What the loop body issues for one ended auction, given its highest bid. */
  function Settlement(a: Product, highest: Option<Bid>): seq<Statement> {
    [SelectHighestBid(a.id)] +
    match highest
    case Some(w) => WonWrites(a, w)
    case None => [InsertNotification(NoBidsNotice(a))]
  }

  /** The writes for an auction with a highest bid `w`, in source order: the
      sale, the purchase, the winner's notice, the seller's notice. */
  function WonWrites(a: Product, w: Bid): seq<Statement> {
    [MarkAuctionAsSold(w.bidderId, a.id), InsertPurchase(WinnerPurchase(a, w)),
     InsertNotification(WonNotice(a, w)), InsertNotification(EndedNotice(a, w))]
  }

  /** The loop over the ended auctions. */
  function Settlements(auctions: seq<Product>, bids: seq<Bid>): seq<Statement> {
    if |auctions| == 0 then []
    else
      var last := auctions[|auctions| - 1];
      Settlements(auctions[..|auctions| - 1], bids) + Settlement(last, HighestBid(bids, last.id))
  }

  lemma SettlementsSnoc(auctions: seq<Product>, bids: seq<Bid>, i: nat)
    requires i < |auctions|
    ensures Settlements(auctions[..i + 1], bids) ==
      Settlements(auctions[..i], bids) + Settlement(auctions[i], HighestBid(bids, auctions[i].id))
  {
    assert auctions[..i + 1][..i] == auctions[..i];
  }

  /** The statements for the first `i` auctions start those for all of them. */
  lemma {:induction false} SettlementsPrefix(auctions: seq<Product>, bids: seq<Bid>, i: nat)
    requires i <= |auctions|
    ensures var head := Settlements(auctions[..i], bids);
      |head| <= |Settlements(auctions, bids)| && Settlements(auctions, bids)[..|head|] == head
  {
    if i < |auctions| {
      var init := auctions[..|auctions| - 1];
      assert init[..i] == auctions[..i];
      SettlementsPrefix(init, bids, i);
    } else {
      assert auctions[..i] == auctions;
    }
  }

  /** A sweep that stopped while settling the first `i` auctions stopped
      while settling them all. */
  lemma SettleStops(a: Database, b: Database, auctions: seq<Product>, bids: seq<Bid>, i: nat,
                    now: int, failAt: Option<nat>, issued: nat, next: nat)
    requires i <= |auctions|
    requires Issued(a, b, Settlements(auctions[..i], bids), now, failAt, issued, next, true)
    ensures Issued(a, b, Settlements(auctions, bids), now, failAt, issued, next, true)
  {
    SettlementsPrefix(auctions, bids, i);
    IssuedStopsIn(a, b, Settlements(auctions[..i], bids), Settlements(auctions, bids), now, failAt, issued, next);
  }

  /** The report asks for each auction's highest bid once more. */
  function ReportQueries(auctions: seq<Product>): seq<Statement> {
    if |auctions| == 0 then []
    else [SelectHighestBid(auctions[0].id)] + ReportQueries(auctions[1..])
  }

  /** Every statement one sweep issues, in order. */
  function SweepPlan(auctions: seq<Product>, bids: seq<Bid>): seq<Statement> {
    [SelectEndedAuctions] + Settlements(auctions, bids) + ReportQueries(auctions)
  }

  /** One entry of the sweep's report. */
  datatype AuctionOutcome = AuctionOutcome(id: int, name: string, hasWinner: bool)

  datatype Report = Report(processed: nat, auctions: seq<AuctionOutcome>)

  /** The store raised on the statement at this position of the sweep. */
  datatype SweepError = StatementFailed(statement: nat)

  function Outcome(a: Product, bids: seq<Bid>): AuctionOutcome {
    AuctionOutcome(a.id, a.name, HighestBid(bids, a.id).Some?)
  }

  function Outcomes(auctions: seq<Product>, bids: seq<Bid>): (r: seq<AuctionOutcome>)
    ensures |r| == |auctions|
    ensures forall k :: 0 <= k < |auctions| ==> r[k] == Outcome(auctions[k], bids)
  {
    if |auctions| == 0 then []
    else Outcomes(auctions[..|auctions| - 1], bids) + [Outcome(auctions[|auctions| - 1], bids)]
  }

  lemma OutcomesSnoc(auctions: seq<Product>, bids: seq<Bid>, i: nat)
    requires i < |auctions|
    ensures Outcomes(auctions[..i + 1], bids) == Outcomes(auctions[..i], bids) + [Outcome(auctions[i], bids)]
  {
    assert auctions[..i + 1][..i] == auctions[..i];
  }

  /** The report of a completed sweep: the number of auctions processed and,
      for each in turn, whether it has a bid. */
  function ReportOf(auctions: seq<Product>, bids: seq<Bid>): Report {
    Report(|auctions|, Outcomes(auctions, bids))
  }

  /** The report counts every ended auction and names each in turn; its
      `hasWinner` holds exactly when the auction has at least one bid. */
  lemma ReportMeaning(auctions: seq<Product>, bids: seq<Bid>)
    ensures var r := ReportOf(auctions, bids);
      r.processed == |auctions| && |r.auctions| == |auctions| &&
      forall k :: 0 <= k < |auctions| ==>
        r.auctions[k].id == auctions[k].id && r.auctions[k].name == auctions[k].name &&
        (r.auctions[k].hasWinner <==> exists b :: b in bids && b.productId == auctions[k].id)
  {
    forall k | 0 <= k < |auctions| {
      HighestBidIsHighest(bids, auctions[k].id);
    }
  }

  /** The statements in `sts`, issued from position `issued` of the sweep,
      took the store from `before` to `after`. If the store raises on one of
      them (the one at position `failAt`) the run stops there with `failed`
      and `next` naming it, and the statements before it stay applied;
      otherwise `next` is the position after the last of them. */
  ghost predicate Issued(before: Database, after: Database, sts: seq<Statement>, now: int,
                         failAt: Option<nat>, issued: nat, next: nat, failed: bool)
  {
    if failAt.Some? && issued <= failAt.value < issued + |sts| then
      failed && next == failAt.value && after == Run(before, sts[..next - issued], now)
    else
      !failed && next == issued + |sts| && after == Run(before, sts, now)
  }

  /** Issuing `xs` to completion and then `ys` is issuing `xs + ys`. */
  lemma IssuedThen(a: Database, b: Database, c: Database, xs: seq<Statement>, ys: seq<Statement>,
                   now: int, failAt: Option<nat>, issued: nat, mid: nat, next: nat, failed: bool)
    requires Issued(a, b, xs, now, failAt, issued, mid, false)
    requires Issued(b, c, ys, now, failAt, mid, next, failed)
    ensures Issued(a, c, xs + ys, now, failAt, issued, next, failed)
  {
    if failed {
      assert (xs + ys)[..next - issued] == xs + ys[..next - mid];
      RunAppend(a, xs, ys[..next - mid], now);
    } else {
      RunAppend(a, xs, ys, now);
    }
  }

  /** A run that stopped inside `xs` also stopped inside `xs + ys`. */
  lemma IssuedStops(a: Database, b: Database, xs: seq<Statement>, ys: seq<Statement>,
                    now: int, failAt: Option<nat>, issued: nat, next: nat)
    requires Issued(a, b, xs, now, failAt, issued, next, true)
    ensures Issued(a, b, xs + ys, now, failAt, issued, next, true)
  {
    assert (xs + ys)[..next - issued] == xs[..next - issued];
  }

  lemma IssuedStopsIn(a: Database, b: Database, xs: seq<Statement>, all: seq<Statement>,
                      now: int, failAt: Option<nat>, issued: nat, next: nat)
    requires |xs| <= |all| && all[..|xs|] == xs
    requires Issued(a, b, xs, now, failAt, issued, next, true)
    ensures Issued(a, b, all, now, failAt, issued, next, true)
  {
    assert all == xs + all[|xs|..];
    IssuedStops(a, b, xs, all[|xs|..], now, failAt, issued, next);
  }

  /** One statement: the store raises on it when it is at position `failAt`;
      otherwise it takes effect. The two queries change nothing; their
      answers are read off the store by the caller. */
  method Issue(store: Store, st: Statement, now: int, failAt: Option<nat>, issued: nat)
    returns (next: nat, failed: bool)
    requires store.Valid()
    modifies store
    ensures store.Valid()
    ensures store.bids == old(store.bids)
    ensures failed == (failAt == Some(issued))
    ensures store.Content() == if failed then old(store.Content()) else Exec(old(store.Content()), st, now)
    ensures Issued(old(store.Content()), store.Content(), [st], now, failAt, issued, next, failed)
  {
    assert [st][..0] == [];
    if failAt == Some(issued) {
      return issued, true;
    }
    match st {
      case SelectEndedAuctions =>
      case SelectHighestBid(_) =>
      case MarkAuctionAsSold(buyerId, id) =>
        store.MarkAsSold(buyerId, id);
      case InsertPurchase(p) =>
        var id := store.CreatePurchase(p, now);
      case InsertNotification(p) =>
        var id := store.CreateNotification(p, now);
    }
    return issued + 1, false;
  }

  /** A winner: the item goes to the highest bidder, a purchase is recorded,
      and the winner and the seller are told. */
  method SettleWon(store: Store, auction: Product, bid: Bid, now: int, failAt: Option<nat>, issued: nat)
    returns (next: nat, failed: bool)
    requires store.Valid()
    modifies store
    ensures store.Valid()
    ensures store.bids == old(store.bids)
    ensures Issued(old(store.Content()), store.Content(), WonWrites(auction, bid), now, failAt, issued, next, failed)
  {
    ghost var s0 := store.Content();
    ghost var sts := WonWrites(auction, bid);
    assert sts == [sts[0]] + [sts[1]] + [sts[2]] + [sts[3]];

    next, failed := Issue(store, MarkAuctionAsSold(bid.bidderId, auction.id), now, failAt, issued);
    if failed {
      IssuedStops(s0, store.Content(), [sts[0]], [sts[1]] + [sts[2]] + [sts[3]], now, failAt, issued, next);
      return;
    }
    ghost var s1, n1 := store.Content(), next;

    next, failed := Issue(store, InsertPurchase(WinnerPurchase(auction, bid)), now, failAt, next);
    IssuedThen(s0, s1, store.Content(), [sts[0]], [sts[1]], now, failAt, issued, n1, next, failed);
    if failed {
      IssuedStops(s0, store.Content(), [sts[0]] + [sts[1]], [sts[2]] + [sts[3]], now, failAt, issued, next);
      return;
    }
    ghost var s2, n2 := store.Content(), next;

    next, failed := Issue(store, InsertNotification(WonNotice(auction, bid)), now, failAt, next);
    IssuedThen(s0, s2, store.Content(), [sts[0]] + [sts[1]], [sts[2]], now, failAt, issued, n2, next, failed);
    if failed {
      IssuedStops(s0, store.Content(), [sts[0]] + [sts[1]] + [sts[2]], [sts[3]], now, failAt, issued, next);
      return;
    }
    ghost var s3, n3 := store.Content(), next;

    next, failed := Issue(store, InsertNotification(EndedNotice(auction, bid)), now, failAt, next);
    IssuedThen(s0, s3, store.Content(), [sts[0]] + [sts[1]] + [sts[2]], [sts[3]], now, failAt, issued, n3, next, failed);
  }

  /** The body of the sweep's loop for one auction: ask for its highest bid
      (amount descending, then created_at ascending); with a bid, settle the
      sale; without one, tell the seller, and the product stays available. */
  method SettleAuction(store: Store, auction: Product, now: int, failAt: Option<nat>, issued: nat)
    returns (next: nat, failed: bool)
    requires store.Valid()
    modifies store
    ensures store.Valid()
    ensures store.bids == old(store.bids)
    ensures Issued(old(store.Content()), store.Content(),
                   Settlement(auction, HighestBid(old(store.bids), auction.id)),
                   now, failAt, issued, next, failed)
  {
    ghost var s0 := store.Content();
    ghost var rest: seq<Statement>;
    var highestBid := HighestBid(store.bids, auction.id);
    if highestBid.Some? {
      rest := WonWrites(auction, highestBid.value);
    } else {
      rest := [InsertNotification(NoBidsNotice(auction))];
    }
    assert Settlement(auction, highestBid) == [SelectHighestBid(auction.id)] + rest;

    next, failed := Issue(store, SelectHighestBid(auction.id), now, failAt, issued);
    if failed {
      IssuedStops(s0, store.Content(), [SelectHighestBid(auction.id)], rest, now, failAt, issued, next);
      return;
    }
    ghost var s1, n1 := store.Content(), next;
    if highestBid.Some? {
      next, failed := SettleWon(store, auction, highestBid.value, now, failAt, next);
    } else {
      next, failed := Issue(store, InsertNotification(NoBidsNotice(auction)), now, failAt, next);
    }
    IssuedThen(s0, s1, store.Content(), [SelectHighestBid(auction.id)], rest, now, failAt, issued, n1, next, failed);
  }

  /** The loop over the ended auctions. */
  method SettleEach(store: Store, auctions: seq<Product>, now: int, failAt: Option<nat>, issued: nat)
    returns (next: nat, failed: bool)
    requires store.Valid()
    modifies store
    ensures store.Valid()
    ensures store.bids == old(store.bids)
    ensures Issued(old(store.Content()), store.Content(), Settlements(auctions, old(store.bids)),
                   now, failAt, issued, next, failed)
  {
    ghost var start := store.Content();
    next, failed := issued, false;
    assert Issued(start, store.Content(), [], now, failAt, issued, next, false);

    for i := 0 to |auctions|
      invariant store.Valid()
      invariant store.bids == start.bids
      invariant Issued(start, store.Content(), Settlements(auctions[..i], start.bids), now, failAt, issued, next, false)
    {
      var auction := auctions[i];
      ghost var done := Settlements(auctions[..i], start.bids);
      ghost var sts := Settlement(auction, HighestBid(start.bids, auction.id));
      SettlementsSnoc(auctions, start.bids, i);
      ghost var before, mid := store.Content(), next;
      next, failed := SettleAuction(store, auction, now, failAt, next);
      IssuedThen(start, before, store.Content(), done, sts, now, failAt, issued, mid, next, failed);
      if failed {
        SettleStops(start, store.Content(), auctions, start.bids, i + 1, now, failAt, issued, next);
        return;
      }
    }
    assert auctions[..|auctions|] == auctions;
  }

  /** The statement reads the store and changes nothing. */
  predicate IsQuery(st: Statement) {
    st.SelectEndedAuctions? || st.SelectHighestBid?
  }

  lemma {:induction false} RunQueries(db: Database, sts: seq<Statement>, now: int)
    requires forall k :: 0 <= k < |sts| ==> IsQuery(sts[k])
    ensures Run(db, sts, now) == db
  {
    if |sts| > 0 {
      RunQueries(db, sts[..|sts| - 1], now);
    }
  }

  lemma {:induction false} ReportQueriesAreQueries(auctions: seq<Product>)
    ensures |ReportQueries(auctions)| == |auctions|
    ensures forall k :: 0 <= k < |auctions| ==> ReportQueries(auctions)[k] == SelectHighestBid(auctions[k].id)
  {
    if |auctions| > 0 {
      ReportQueriesAreQueries(auctions[1..]);
    }
  }

  /** Issuing queries after `xs` leaves the store as `xs` left it; the run
      stops at the query the store raises on, if any. */
  lemma IssuedQueries(a: Database, b: Database, xs: seq<Statement>, ys: seq<Statement>, now: int,
                      failAt: Option<nat>, issued: nat, mid: nat, next: nat, failed: bool)
    requires Issued(a, b, xs, now, failAt, issued, mid, false)
    requires forall k :: 0 <= k < |ys| ==> IsQuery(ys[k])
    requires failed <==> failAt.Some? && mid <= failAt.value < mid + |ys|
    requires if failed then next == failAt.value else next == mid + |ys|
    ensures Issued(a, b, xs + ys, now, failAt, issued, next, failed)
  {
    var k := next - mid;
    assert (xs + ys)[..next - issued] == xs + ys[..k];
    RunQueries(b, ys[..k], now);
    RunAppend(a, xs, ys[..k], now);
    assert ys[..|ys|] == ys;
  }

  /** The report: each auction's highest bid is asked for once more. The
      queries change nothing; the store may raise on any of them. */
  method ReportEach(store: Store, auctions: seq<Product>, failAt: Option<nat>, issued: nat)
    returns (next: nat, failed: bool, outcomes: seq<AuctionOutcome>)
    ensures failed <==> failAt.Some? && issued <= failAt.value < issued + |auctions|
    ensures if failed then next == failAt.value else next == issued + |auctions|
    ensures !failed ==> outcomes == Outcomes(auctions, store.bids)
  {
    next, failed := issued, false;
    outcomes := [];
    for i := 0 to |auctions|
      invariant next == issued + i
      invariant !(failAt.Some? && issued <= failAt.value < next)
      invariant outcomes == Outcomes(auctions[..i], store.bids)
    {
      var a := auctions[i];
      OutcomesSnoc(auctions, store.bids, i);
      if failAt == Some(next) {
        failed := true;
        return;
      }
      outcomes := outcomes + [Outcome(a, store.bids)];
      next := next + 1;
    }
    assert auctions[..|auctions|] == auctions;
  }

  /** processEndedAuctions: every ended auction in turn, then the report.
      A store failure ends the sweep with an error. */
  method ProcessEndedAuctions(store: Store, now: int, failAt: Option<nat>)
    returns (outcome: Result<Report, SweepError>)
    requires store.Valid()
    modifies store
    ensures store.Valid()
    ensures var plan := SweepPlan(EndedAuctions(old(store.products), now), old(store.bids));
      if failAt.Some? && failAt.value < |plan| then
        outcome == Err(StatementFailed(failAt.value)) &&
        store.Content() == Run(old(store.Content()), plan[..failAt.value], now)
      else
        outcome == Ok(ReportOf(EndedAuctions(old(store.products), now), old(store.bids))) &&
        store.Content() == Run(old(store.Content()), plan, now)
  {
    ghost var s0 := store.Content();
    ghost var ended := EndedAuctions(store.products, now);
    ghost var settle := Settlements(ended, store.bids);
    var issued: nat, failed: bool;

    issued, failed := Issue(store, SelectEndedAuctions, now, failAt, 0);
    if failed {
      IssuedStops(s0, store.Content(), [SelectEndedAuctions], settle + ReportQueries(ended), now, failAt, 0, issued);
      return Err(StatementFailed(issued));
    }
    var endedAuctions := EndedAuctions(store.products, now);
    assert endedAuctions == ended;
    ghost var s1, n1 := store.Content(), issued;

    issued, failed := SettleEach(store, endedAuctions, now, failAt, issued);
    IssuedThen(s0, s1, store.Content(), [SelectEndedAuctions], settle, now, failAt, 0, n1, issued, failed);
    if failed {
      IssuedStops(s0, store.Content(), [SelectEndedAuctions] + settle, ReportQueries(ended), now, failAt, 0, issued);
      return Err(StatementFailed(issued));
    }
    ghost var s2, n2 := store.Content(), issued;

    var outcomes: seq<AuctionOutcome>;
    issued, failed, outcomes := ReportEach(store, endedAuctions, failAt, issued);
    ReportQueriesAreQueries(ended);
    IssuedQueries(s0, s2, [SelectEndedAuctions] + settle, ReportQueries(ended),
                  now, failAt, 0, n2, issued, failed);
    if failed {
      return Err(StatementFailed(issued));
    }
    outcome := Ok(Report(|endedAuctions|, outcomes));
  }
}
