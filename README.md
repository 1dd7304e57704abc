# avsshop auction lifecycle, in Dafny

This project models the auction lifecycle of the avsshop marketplace:

- how a listing is validated and stored;
- how the bid form computes the minimum next bid;
- how the settlement sweep `processEndedAuctions` settles every auction whose deadline has passed;
- the SQLite statements these rely on;
- the middleware that serves `/uploads/…` from `/api/uploads/…`.

Modules, one per file:

- `Wrappers` and `Records`: `Option`/`Result` and the table rows. Money is an exact `real`, an instant is an integer clock, and a nullable column is an `Option`.
- `DbRows`: the queries of `app/lib/db.ts` as functions over table rows.
  - `EndedAuctions`, `ActiveAuctions` and `AllProducts` are filters. `getAllProducts` orders by `created_at DESC`, which is modelled as reverse table order.
  - `BidsByProduct` is a stable insertion sort by amount descending, then `created_at` ascending. `HighestBid` is a scan that keeps the first bid in that order.
  - `MarkSold`, `SetCurrentBid`, `DeleteRows` and `MarkRead` give the rows after each UPDATE/DELETE.
- `Db`: the store as a class `Store`.
  - It holds one sequence field per table plus the AUTOINCREMENT counters.
  - Each write statement is a method whose `ensures` gives the whole new state. `Valid()` keeps product and notification ids distinct, and every id below its table's counter.
- `AuctionProcessor`: the sweep.
  - The sweep issues a sequence of statements (`SweepPlan`): the ended-auction query, then per auction the highest-bid query and its writes, then one highest-bid query per auction for the report.
  - `Run` gives the database after a prefix of these statements.
  - A store failure is the parameter `failAt`, the position of the statement that raises. The sweep then stops with an error, leaving exactly the effect of the statements before it. Nothing is rolled back, because the code uses no transaction.
- `SweepEffects`: the database after a completed sweep, in closed form (`Settled`), and the properties of one and of two successive sweeps.
- `BidFloor`: the floor `(current_bid || starting_price || 0) + (min_bid_step || 0.01)` and the client-side check. `PlaceBid` records an accepted bid as `createBid` followed by `updateProductCurrentBid`. These two writes stand in for the server bid route, which is not modelled.
- `ProductsRoute`: the POST handler's checks and the row it builds (`ValidateListing`). `CreateListing` inserts that row.
- `Middleware`: the `/uploads/` rewrite.

Behaviours kept as the code has them:

- An auction that ended without bids stays `available`. Every later sweep therefore notifies its seller again (`SweepEffects.SecondSweepRenotifies`).
- `hasWinner` in the report comes from a second highest-bid query, issued after all the settlements.
- A listing type other than "fixed" and "auction" passes with no type-specific check.
- An auction with a negative starting price is accepted, since only a zero or missing price is falsy.

## Model

| member | source | states |
|---|---|---|
| DbRows.EndedAuctions | app/lib/db.ts:295-302 | a product is returned iff it is an auction, `available`, and its end is at or before `now` |
| DbRows.ActiveAuctions | app/lib/db.ts:283-293 | a product is returned iff it is an available auction whose end is after `now` |
| DbRows.EndedActivePartition | app/lib/db.ts:284-302 | an available auction with an end time is in exactly one of the ended and active results; one without an end time is in neither |
| DbRows.AllProducts | app/lib/db.ts:170-177 | exactly the `available` products are listed |
| DbRows.NewestFirstIsByCreationDesc | app/lib/db.ts:176 | listing in reverse table order is `created_at`-descending whenever rows were inserted in nondecreasing time |
| DbRows.ProductBids | app/lib/db.ts:273 | a bid is kept iff it belongs to the product |
| DbRows.BidsByProduct | app/lib/db.ts:269-275 | the product's bids, all of them and no others, as a permutation ordered by amount descending then `created_at` ascending |
| DbRows.HeadOutranksAll | app/lib/db.ts:274 | a bid that outranks the head of an ordered sequence outranks every bid in it |
| DbRows.SortByRank | app/lib/db.ts:274 | the result is a permutation of the input, of the same length, and ordered by the ORDER BY |
| DbRows.InsertByRank | app/lib/db.ts:274 | inserting one bid into an ordered sequence keeps it ordered and adds exactly that bid |
| DbRows.ProductBidsSnoc | app/lib/db.ts:273 | a product's bids with one more row appended gain that row iff it belongs to the product |
| DbRows.HighestBidIsFirstRanked | app/lib/db.ts:269-312 | the highest bid (LIMIT 1) is the first row of `getBidsByProductId`, and there is none iff that list is empty |
| DbRows.FirstRankedIsHighest | app/lib/db.ts:269-275 | the first row of `getBidsByProductId` has the top amount and, among those, the earliest time |
| DbRows.HighestBidIsHighest | app/lib/db.ts:305-312 | there is no highest bid iff the product has no bids; otherwise it is a bid of the product that outranks all its other bids |
| DbRows.HighestIsUniqueUpToTies | app/lib/db.ts:310-311 | two highest bids differ only in columns the ORDER BY does not look at |
| DbRows.MarkSoldEffect | app/lib/db.ts:314-319 | only `status` and `buyer_id` of the rows with that id change, to `sold` and the buyer; afterwards the product is in neither the product list nor the ended auctions |
| DbRows.DeleteRows | app/lib/db.ts:198-200 | a row is kept iff it is not the given id with the given seller |
| DbRows.DeleteByOtherSellerKeepsAll | app/lib/db.ts:198-200 | a delete by someone other than the seller removes nothing |
| DbRows.MarkReadIdempotent | app/lib/db.ts:230-234 | marking a notification read twice is the same as once |
| DbRows.MarkReadLowersCount | app/lib/db.ts:230-240 | marking read lowers a user's unread count by exactly the number of that user's unread rows with the id |
| DbRows.MarkReadCountOne | app/lib/db.ts:230-240 | with distinct ids, the count drops by one iff the row was that user's and unread, and is unchanged otherwise |
| DbRows.FilterKeepsDistinctIds | app/lib/db.ts:198-200 | removing rows keeps product ids distinct |
| Db.NewNotificationRow | app/lib/db.ts:219-222 | an inserted notification carries the given values and starts unread |
| Db.NewPurchaseRow | app/lib/db.ts:207-210 | an inserted purchase carries the given values |
| Db.Store.constructor | app/lib/db.ts:28-108 | a fresh store has empty tables, every id counter at 1, and keeps its invariant |
| Db.Store.CreateProduct | app/lib/db.ts:158-161 | appends exactly one row with the next id and the column defaults; nothing else changes |
| Db.Store.CreateBid | app/lib/db.ts:264-267 | appends exactly one bid with the next id; nothing else changes |
| Db.Store.CreateNotification | app/lib/db.ts:219-222 | appends exactly one unread notification with the next id; nothing else changes |
| Db.Store.CreatePurchase | app/lib/db.ts:207-210 | appends exactly one purchase with the next id; nothing else changes |
| Db.Store.MarkAsSold | app/lib/db.ts:314-319 | the products become `MarkSold` of the old products; no other table changes |
| Db.Store.UpdateProductCurrentBid | app/lib/db.ts:277-281 | overwrites `current_bid` of that product with any amount, with no floor or monotonicity check |
| Db.Store.DeleteProduct | app/lib/db.ts:198-200 | removes the seller's own product; fails and changes nothing iff the product would be removed while a bid or purchase still refers to it |
| Db.Store.MarkNotificationAsRead | app/lib/db.ts:230-234 | the notifications become `MarkRead` of the old ones; the invariant is kept |
| AuctionProcessor.RunAppend | app/lib/auction-processor.ts:14-73 | running two statement sequences in turn is running their concatenation |
| AuctionProcessor.SettlementsPrefix | app/lib/auction-processor.ts:14 | the statements for the first i auctions are a prefix of those for all of them |
| AuctionProcessor.Outcomes | app/lib/auction-processor.ts:77-81 | one report entry per ended auction, in order |
| AuctionProcessor.ReportMeaning | app/lib/auction-processor.ts:75-81 | `processed` is the number of ended auctions; entry k has auction k's id and name, and `hasWinner` holds iff that auction has at least one bid |
| AuctionProcessor.Issue | app/lib/auction-processor.ts:20-71 | one store call applies its statement, or on failure raises and changes nothing |
| AuctionProcessor.SettleWon | app/lib/auction-processor.ts:18-57 | the winner branch applies its four writes in order, stopping at the first failure |
| AuctionProcessor.SettleAuction | app/lib/auction-processor.ts:14-72 | one loop iteration has the effect of that auction's statements up to any failure |
| AuctionProcessor.SettleEach | app/lib/auction-processor.ts:14-73 | the loop visits every ended auction once, in order, and stops at the first failure |
| AuctionProcessor.ReportEach | app/lib/auction-processor.ts:75-81 | the report's queries change nothing and give one outcome per auction |
| AuctionProcessor.ProcessEndedAuctions | app/lib/auction-processor.ts:10-87 | a completed sweep returns the report and leaves the effect of all its statements; a failure returns an error and leaves exactly the effect of the statements before the failing one |
| SweepEffects.SettlementEffect | app/lib/auction-processor.ts:16-72 | settling one auction marks it sold to the top bidder, if any, and appends its purchase and notices with consecutive ids |
| SweepEffects.SettlementsEffect | app/lib/auction-processor.ts:14-73 | settling a list of auctions gives the closed form `Settled` |
| SweepEffects.SweepEffect | app/lib/auction-processor.ts:10-82 | a completed sweep leaves the database `Settled` over the ended auctions |
| SweepEffects.SettledAfterSelect | app/lib/auction-processor.ts:12-73 | the ended-auction query followed by the settlements gives `Settled` |
| SweepEffects.SweepSellsWon | app/lib/auction-processor.ts:16-20 | a sweep changes only `status` and `buyer_id`; every ended auction with a bid becomes sold to its highest bidder |
| SweepEffects.SweepKeepsOthers | app/lib/auction-processor.ts:58-71 | with distinct ids, every product that is not an ended auction with a bid is left as it was, so a no-bid auction stays available with no buyer |
| SweepEffects.PurchasesFor | app/lib/auction-processor.ts:18-71 | with distinct ids, the purchases a sweep appends for one auction are exactly one `auction_winner`/`auction` purchase by the top bidder, or none without bids |
| SweepEffects.NoticesFor | app/lib/auction-processor.ts:30-71 | with distinct ids, the notices for one auction are exactly `auction_won` to the winner and `auction_ended` to the seller, both with the top amount, or else a single `auction_no_bids` to the seller |
| SweepEffects.PurchasesAreForSwept | app/lib/auction-processor.ts:23-28 | every purchase a sweep appends is for an auction it swept |
| SweepEffects.NoticesAreForSwept | app/lib/auction-processor.ts:31-71 | every notice a sweep appends is about an auction it swept |
| SweepEffects.NewNotificationsUnread | app/lib/db.ts:219-222 | the appended notifications carry their values and consecutive ids, and start unread |
| SweepEffects.SweptKeepsIds | app/lib/auction-processor.ts:20 | a sweep keeps product ids distinct |
| SweepEffects.SecondSweepSkipsSold | app/lib/auction-processor.ts:12-20 | an auction the first sweep sold is not among the next sweep's ended auctions, which write no purchase and no notice for it |
| SweepEffects.SecondSweepRenotifies | app/lib/auction-processor.ts:58-71 | an auction that ended without bids is still ended at any later sweep, whose only notice about it is another `auction_no_bids` to its seller |
| SweepEffects.RunOnlyAdds | app/lib/auction-processor.ts:14-73 | the sweep's statements only append notifications and purchases and never turn a sold product back |
| SweepEffects.RunKeepsUnsold | app/lib/auction-processor.ts:14-73 | statements that mark only the given auctions sold leave every other product row exactly as it was |
| SweepEffects.FailedSweepKeepsSettled | app/lib/auction-processor.ts:14-86 | with distinct product ids, after a failure past the first i auctions, their purchases and notices remain, and every product row they sold stays exactly as they left it: sold, to the same buyer |
| BidFloor.CheckBid | app/components/products/BidButton.tsx:27-31 | a refused bid reports the floor |
| BidFloor.NextFloor | app/lib/db.ts:277-281 | after `updateProductCurrentBid` other products keep their floor; a non-zero amount makes the next floor the amount plus the step, above the floor it passed when the step is non-negative; a zero amount lets the floor fall back to the starting price |
| BidFloor.FloorAboveBase | app/components/products/BidButton.tsx:24-60 | with a non-negative step the floor is above the base, and exactly 0.01 above it when the step is null or 0 |
| BidFloor.AcceptedExceedsBase | app/components/products/BidButton.tsx:24-27 | with a non-negative step an accepted bid exceeds the base, and so any non-zero current bid |
| BidFloor.AcceptedBidBecomesHighest | app/components/products/BidButton.tsx:24-27 | if no bid on the product exceeds the base, an accepted bid, once recorded, is the product's highest bid |
| BidFloor.PlaceBid | app/components/products/BidButton.tsx:23-39 | refuses exactly the bids below the floor, changing nothing; otherwise appends the bid with the next bid id, sets the current bid, advances only the bid counter, and changes nothing else, in two separate writes |
| ProductsRoute.CreateListing | app/api/products/route.ts:21-101 | a refused form inserts nothing and returns its error; an accepted one appends exactly the validated row with the next product id, advances only the product counter, and changes nothing else |
| ProductsRoute.MissingTextRejected | app/api/products/route.ts:44-49 | the missing-text 400 is given iff the name or a description is missing or empty |
| ProductsRoute.EmptyTypeIsFixed | app/api/products/route.ts:39 | an absent or empty listing type behaves exactly as "fixed" |
| ProductsRoute.FixedAcceptance | app/api/products/route.ts:44-58 | a fixed listing is accepted iff the texts are present and price and stock are non-zero numbers |
| ProductsRoute.FixedRow | app/api/products/route.ts:85-99 | an accepted fixed listing stores its price and stock, with no current bid and no step |
| ProductsRoute.AuctionAcceptance | app/api/products/route.ts:44-83 | an auction is accepted iff the texts are present, the starting price is non-zero, the end is given and strictly after `now`, and any non-zero step is at least 0.01 |
| ProductsRoute.AuctionRow | app/api/products/route.ts:85-99 | an accepted auction stores price 0, stock 1, current bid = starting price, and a step of at least 0.01 (0.01 when none was given) |
| ProductsRoute.OtherTypeUnchecked | app/api/products/route.ts:51-99 | any other listing type is accepted iff the texts are present, and is stored under its own name without a current bid or bid step; its starting price and end are stored as given |
| ProductsRoute.FirstBidFloor | app/api/products/route.ts:96-98 | the first bid on a new auction must reach the starting price plus the stored step, at least 0.01 above it |
| Middleware.RewriteShape | middleware.ts:4-13 | exactly the pathnames starting with `/uploads/` are rewritten, to `/api/uploads/` plus the same suffix, with host and query kept |
| Middleware.RewriteInvertible | middleware.ts:8 | removing `/api` from the rewritten pathname gives back the request URL |
| Middleware.RewriteOnce | middleware.ts:6-8 | a rewritten URL passes through unchanged |
| Middleware.BareUploadsPasses | middleware.ts:6-12 | `/uploads` without a trailing slash passes through |

## Left out

- Users and joins. The `users` table is not modelled; joins on it are assumed to match. `bidder_name`, `seller_name`, `winnerName` and `primary_image` are not represented.
- Float behaviour. Money is exact, so `toFixed(2)` formatting, `parseFloat`/`parseInt` and NaN are not modelled. A number that is missing or does not parse is `None` in the form.
- Date parsing. SQLite `datetime()`, `new Date(...)` and time zones are replaced by an integer clock. An `auction_end` string that `new Date` cannot parse is not modelled; in the code it would pass the future-time check.
- Notification message text and the `JSON.stringify` encoding. Payloads are records.
- Console logging.
- Image uploads in the listing handler and the `product_images` table.
- AuctionProcessor.ProcessEndedAuctions: the sweep is modelled with a single timestamp `now`. It stands for SQLite's `datetime('now')` in the ended-auction query and for the `CURRENT_TIMESTAMP` of every row the sweep inserts; in the program the clock may move between those statements.
- Concurrency. Statements run one at a time. No atomicity is claimed for the sweep or for placing a bid.
- BidFloor.PlaceBid: the server bid route (`app/api/products/[id]/bid/route.ts`) is not part of this model. Its own re-validation of the amount and the auction state (lines 23-81) and the `new_bid` notification it sends the seller (lines 94-103) are not modelled; `PlaceBid` is only the client-side check followed by the two store writes.
- The HTTP 500 path of the listing handler. Of the failures that path catches, only store failures are modelled, and only for the sweep (`failAt`).
- Other foreign keys. Deleting a product fails when a bid or purchase refers to it. The `order_items` reference and the cascade to `product_images` are not modelled, and neither is the failure of `createBid` or `createPurchase` when the product they name does not exist.
- `updated_at` and other columns the modelled statements do not write.
- Statements of `app/lib/db.ts` that the auction lifecycle does not use: users, orders, per-user product lists, the admin delete, and notification listing.
- The schema, migrations, the admin bootstrap and the bcrypt helpers.
- The middleware matcher configuration. `Route` is applied to every URL.
- DbRows.HighestBid: rows tying on both amount and `created_at` come back in table order. SQLite leaves that order unspecified, so the model fixes one choice; `HighestIsUniqueUpToTies` shows that tied rows agree on everything the ORDER BY looks at.
- DbRows.EndedAuctions: `getEndedAuctions` has no ORDER BY, so SQLite may return the ended auctions in any order; the model fixes table order. The ids of the notifications and purchases a sweep writes, and which statement a given `failAt` position names, depend on that order.
- DbRows.AllProducts: `ORDER BY created_at DESC` is modelled as reverse table order. That agrees with SQLite only while `created_at` does not decrease along the table, which `NewestFirstIsByCreationDesc` assumes and `Store.Valid()` does not maintain; rows created in the same second, which SQLite leaves unordered, are also given a fixed order. The same holds for `DbRows.ActiveAuctions`.
