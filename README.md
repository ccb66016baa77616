# gamja-market auctions, modelled in Dafny

gamja-market is a second-hand marketplace that sells every item by a timed auction. This project models the auction core:

- **Bid admission** (`BidService.placeBid`). Four guards run against the auction row. Then an atomic Lua compare-and-raise runs on a per-auction "highest bid" marker kept in Redis. Only after that is the bid appended to the bid table.
- **Effective status** (`Auction.getEffectiveStatus`). This is the status a reader sees, derived from the stored status and the clock.
- **Lifecycle scheduler** (`AuctionScheduler`).
  - The start sweep moves BEFORE_START auctions whose start has come to ON_GOING, in one bulk UPDATE.
  - The end sweep closes ON_GOING auctions whose end has passed. Each becomes BID_COMPLETED if it has a bid, and END_WITHOUT_BID otherwise.
- **Repository query semantics** (`AuctionRepository`, `BidRepository`), as functions over the tables.
- **Item guards** (`ItemService`).
  - Item creation checks the start-time window, picks the initial status and orders the images.
  - Item edits are refused once the auction has a bid or has ended.
  - Item withdrawal is refused in the last hour; otherwise it cancels an auction that already has bids.

How the model is built:

- Time is an integer count of nanoseconds, matching the resolution of `LocalDateTime`. The current time is always a parameter `now`.
- `plusDays(7)` and `minusHours(1)` are the exact offsets `Week` and `Hour`.
- Each table is a class whose fields the writing operations update; those operations are methods with `modifies` clauses:
  - the auction table is `AuctionStore.rows`, a map keyed by auction id (the item id);
  - the bid table is `BidLedger.bids`, a sequence in append order;
  - the item table is `ItemStore.items`, a map keyed by item id, with `ItemStore.nextId` as the identity generator;
  - the image table is `ItemImageStore.images`, a sequence in insertion order;
  - the Redis markers are `BidService.highest`, a map from auction id to price.

Bid admission is specified by the pure function `Bidding.Admit`. The method `PlaceBid` is proved to compute it. When each `placeBid` call runs as one step, the invariant `Consistent` is proved to hold over any sequence of calls; it says:

- for each auction, the recorded prices strictly increase in append order;
- no recorded price exceeds the marker;
- each marker value is the price of a recorded bid.

In the program only the Lua script is atomic (`BidService.kt:62-66`); the save of the bid (`BidService.kt:81`) is a later, separate step. `Bidding.Interleave` models overlapping calls as separate script and save steps. Under every interleaving, no recorded or waiting price exceeds its marker (`Bidding.InterleaveKeepsBelowMarker`). The per-auction ordering of the bid table does not survive: `Bidding.InterleavingCanReorderBids` exhibits two calls that save 1500 before 1200 (see "## Findings").

The end sweep is specified by `Scheduling.EndSweep`. `ProcessEndAuctions` is proved to compute it with a loop over the candidates.

Modules (one file each):

- `Wrappers`: `Option` and `Result`.
- `Domain`: statuses, auction and bid rows, effective status.
- `BidRepository`: the bid table and its queries.
- `AuctionRepository`: the auction table, the bulk update and the queries.
- `Bidding`: `BidService`.
- `Scheduling`: `AuctionScheduler`.
- `Items`: `ItemService`.

Behaviour of the code worth knowing, which the model follows:

- `createItem` never compares `startAt` with `endAt` (`ItemService.kt:78-87`), so any end time is accepted. `Domain.EffectiveStatusStartWinsOverEnd` shows what a reader sees when the start lies after the end.
- `deleteItem` checks only the time (`ItemService.kt:196`), never the stored status, so an auction that is already closed or cancelled can be cancelled again.
- `deleteItem` leaves the auction of an item without bids in its stored status. Only the item is marked deleted.
- `placeBid` never looks at the stored status (`Bidding.AdmitIgnoresStoredStatus`). Only the end time is checked, not the start time, and the marker starts at 0, not at the start price.

## Model

| member | source | states |
|---|---|---|
| Domain.EffectiveStatus | gamja-market/libs/common-domain/src/main/kotlin/com/gamjamarket/domain/Auction.kt:36-50 | A terminal stored status is returned for every `now`. Otherwise the result is BEFORE_START iff `now < startAt`, ON_GOING iff `startAt <= now <= endAt`, and END_WITHOUT_BID iff `startAt <= now` and `endAt < now`. BID_COMPLETED or CANCELLED is returned only when already stored. |
| Domain.EffectiveStatusIgnoresStoredProgress | gamja-market/libs/common-domain/src/main/kotlin/com/gamjamarket/domain/Auction.kt:45-49 | For a non-terminal row, storing BEFORE_START or ON_GOING makes no difference to the effective status. |
| Domain.EffectiveStatusStartWinsOverEnd | gamja-market/libs/common-domain/src/main/kotlin/com/gamjamarket/domain/Auction.kt:46-47 | When the start lies after the end, a reader before the start sees BEFORE_START, and never ON_GOING. |
| BidRepository.BidLedger.Save | gamja-market/apps/market-api/src/main/kotlin/com/gamjamarket/api/service/BidService.kt:81 | Saving a bid appends exactly that bid to the table. |
| BidRepository.FindByAuctionId | gamja-market/libs/common-domain/src/main/kotlin/com/gamjamarket/repository/BidRepository.kt:15 | The result holds exactly the bids of the table that belong to the auction, and is no longer than the table; order and multiplicity are fixed by `FindByAuctionIdAppend`. |
| BidRepository.FindByAuctionIdAppend | gamja-market/libs/common-domain/src/main/kotlin/com/gamjamarket/repository/BidRepository.kt:15 | Appending a bid extends the auction's history by exactly that bid when it belongs to the auction, and leaves it unchanged otherwise; with the empty table this makes the history the table's own bids of that auction, in table order, each as often as in the table (proved by induction). |
| BidRepository.FindAllByBidderId | gamja-market/libs/common-domain/src/main/kotlin/com/gamjamarket/repository/BidRepository.kt:18 | The result holds exactly the bids placed by that bidder; order and multiplicity are fixed by `FindAllByBidderIdAppend`. |
| BidRepository.FindAllByBidderIdAppend | gamja-market/libs/common-domain/src/main/kotlin/com/gamjamarket/repository/BidRepository.kt:18 | Appending a bid extends the bidder's history by exactly that bid when that user placed it, and leaves it unchanged otherwise (proved by induction). |
| BidRepository.ExistsByAuctionId | gamja-market/libs/common-domain/src/main/kotlin/com/gamjamarket/repository/BidRepository.kt:21 | True iff some bid of the table references the auction. |
| BidRepository.FindAuctionIdsWithBidsIn | gamja-market/libs/common-domain/src/main/kotlin/com/gamjamarket/repository/BidRepository.kt:23-24 | The result has no duplicates (DISTINCT). Every id in it is an input id with a bid, and every input id with a bid is in it. |
| BidRepository.ExistsIffHistoryNonEmpty | gamja-market/libs/common-domain/src/main/kotlin/com/gamjamarket/repository/BidRepository.kt:15-21 | The existence query agrees with the history query: an auction has a bid iff its history is non-empty. |
| BidRepository.HistoryIsIncreasing | gamja-market/libs/common-domain/src/main/kotlin/com/gamjamarket/repository/BidRepository.kt:15 | On a table whose bids rise per auction, an auction's history is strictly increasing in price (proved by induction). |
| AuctionRepository.AuctionStore.Save | gamja-market/apps/market-api/src/main/kotlin/com/gamjamarket/api/service/ItemService.kt:78-87 | Saving writes the row under its id and leaves every other row alone. |
| AuctionRepository.AuctionStore.UpdateAuctionStatusToOngoing | gamja-market/libs/common-domain/src/main/kotlin/com/gamjamarket/repository/AuctionRepository.kt:18-28 | The table becomes `BulkUpdate` of the old table. The returned count is the number of rows the WHERE clause matched. |
| AuctionRepository.Matching | gamja-market/libs/common-domain/src/main/kotlin/com/gamjamarket/repository/AuctionRepository.kt:22-28 | The rows the update touches, and whose number it returns, are exactly those stored in `oldStatus` with `startAt <= now`. |
| AuctionRepository.BulkUpdate | gamja-market/libs/common-domain/src/main/kotlin/com/gamjamarket/repository/AuctionRepository.kt:19-22 | The same ids are kept. A row stored in `oldStatus` with `startAt <= now` gets `newStatus` and keeps every other column. Every other row is unchanged. |
| AuctionRepository.BulkUpdateIdempotent | gamja-market/libs/common-domain/src/main/kotlin/com/gamjamarket/repository/AuctionRepository.kt:22 | A second update at the same `now` matches no row and changes nothing. |
| AuctionRepository.StartSweepLeavesOnlyFutureStarts | gamja-market/libs/common-domain/src/main/kotlin/com/gamjamarket/repository/AuctionRepository.kt:22 | After the start update, a row is BEFORE_START iff it was BEFORE_START with its start after `now`. |
| AuctionRepository.FindAllByAuctionStatus | gamja-market/libs/common-domain/src/main/kotlin/com/gamjamarket/repository/AuctionRepository.kt:15 | The result holds exactly the rows stored in the given status, unchanged. |
| AuctionRepository.FindAllByAuctionStatusAndEndAtBefore | gamja-market/libs/common-domain/src/main/kotlin/com/gamjamarket/repository/AuctionRepository.kt:31 | The result holds exactly the rows in the given status whose end lies strictly before `dateTime`. |
| Bidding.Admit | gamja-market/apps/market-api/src/main/kotlin/com/gamjamarket/api/service/BidService.kt:42-87 | The guards, in order, each as an iff: missing auction, self-bid, `endAt < now`, price below start price, price not above the marker (absent marker counts as 0). A refusal changes neither marker nor table. On success only this auction's marker becomes the price, exactly one bid is appended, and the reply carries that price. |
| Bidding.AdmitKeepsConsistent | gamja-market/apps/market-api/src/main/kotlin/com/gamjamarket/api/service/BidService.kt:28-81 | Every admission attempt keeps `Consistent`: prices rise per auction in append order, no price exceeds its marker, and every marker is a recorded price. |
| Bidding.MarkerMatchesBidTable | gamja-market/apps/market-api/src/main/kotlin/com/gamjamarket/api/service/BidService.kt:59-81 | Under `Consistent`, an auction has a marker iff it has a bid, and every bid of its history is at most the marker. |
| Bidding.EqualBidRejected | gamja-market/apps/market-api/src/main/kotlin/com/gamjamarket/api/service/BidService.kt:31-71 | A bid equal to the current marker is refused and changes nothing. |
| Bidding.AtMostOneWinnerPerPrice | gamja-market/apps/market-api/src/main/kotlin/com/gamjamarket/api/service/BidService.kt:28-35 | Once a price has been accepted on an auction, the same price is refused, whoever submits it and whenever. |
| Bidding.AcceptedBidNotClosedBySweep | gamja-market/apps/market-api/src/main/kotlin/com/gamjamarket/api/service/BidService.kt:51-53 | An auction that accepts a bid at `now` is not among the rows the end sweep at `now` selects. |
| Bidding.AcceptedBidExtendsHistory | gamja-market/apps/market-api/src/main/kotlin/com/gamjamarket/api/service/BidService.kt:75-81 | An accepted bid extends its own auction's history by exactly that bid, and leaves every other auction's history unchanged. |
| Bidding.AdmitIgnoresStoredStatus | gamja-market/apps/market-api/src/main/kotlin/com/gamjamarket/api/service/BidService.kt:43-57 | The outcome of a bid does not depend on the auction's stored status. |
| Bidding.ReplayKeepsConsistent | gamja-market/apps/market-api/src/main/kotlin/com/gamjamarket/api/service/BidService.kt:42-87 | Over any sequence of bid calls, `Consistent` is preserved (proved by induction). |
| Bidding.ReplayFromEmpty | gamja-market/apps/market-api/src/main/kotlin/com/gamjamarket/api/service/BidService.kt:42-87 | Starting from no markers and no bids, any sequence of bid calls yields rising per-auction prices, each bounded by its marker. |
| Bidding.Reserve | gamja-market/apps/market-api/src/main/kotlin/com/gamjamarket/api/service/BidService.kt:42-71 | The guards and script of one call without its save: on acceptance the marker becomes the price and the bid waits; on refusal nothing changes; the bid table is never touched. |
| Bidding.Commit | gamja-market/apps/market-api/src/main/kotlin/com/gamjamarket/api/service/BidService.kt:81 | The save of one waiting bid appends it to the bid table and removes it from the waiting bids; the markers are untouched. |
| Bidding.InterleaveKeepsBelowMarker | gamja-market/apps/market-api/src/main/kotlin/com/gamjamarket/api/service/BidService.kt:59-81 | Under every interleaving of scripts and saves, every recorded or waiting bid is at most its auction's marker (proved by induction). |
| Bidding.InterleavingCanReorderBids | gamja-market/apps/market-api/src/main/kotlin/com/gamjamarket/api/service/BidService.kt:59-81 | Two overlapping calls, accepted by the script at 1200 and then 1500, can save 1500 first; the bid table then breaks the per-auction price ordering. |
| Bidding.BidService.constructor | gamja-market/apps/market-api/src/main/kotlin/com/gamjamarket/api/service/BidService.kt:19-24 | A new service has no markers and is consistent over an empty bid table. |
| Bidding.BidService.RunBidScript | gamja-market/apps/market-api/src/main/kotlin/com/gamjamarket/api/service/BidService.kt:28-35 | Returns 1 iff the price is strictly above the marker (absent counts as 0), and 0 otherwise. The marker becomes the price exactly when 1 is returned. |
| Bidding.BidService.PlaceBid | gamja-market/apps/market-api/src/main/kotlin/com/gamjamarket/api/service/BidService.kt:42-87 | The new markers, the new bid table and the reply are exactly what `Admit` gives for the old state. `Consistent` is preserved. |
| Bidding.BidService.GetBidHistory | gamja-market/apps/market-api/src/main/kotlin/com/gamjamarket/api/service/BidService.kt:90-107 | Fails iff the auction does not exist, and then with AuctionNotFound. Otherwise it returns the auction's history `FindByAuctionId` of the bid table: exactly the auction's bids, in table order, each as often as in the table, and rising in price when the service is consistent. |
| Scheduling.ClosingStatus | gamja-market/apps/market-batch/src/main/kotlin/com/gamjamarket/batch/scheduler/AuctionScheduler.kt:65-72 | A closing auction gets a terminal, non-cancelled status: BID_COMPLETED iff it has a bid. |
| Scheduling.EndDue | gamja-market/apps/market-batch/src/main/kotlin/com/gamjamarket/batch/scheduler/AuctionScheduler.kt:46-49 | The candidates are exactly the rows stored ON_GOING with their end strictly before `now`. |
| Scheduling.EndSweep | gamja-market/apps/market-batch/src/main/kotlin/com/gamjamarket/batch/scheduler/AuctionScheduler.kt:46-73 | The same ids are kept. Each candidate is closed according to whether its own id has a bid. Every other row is unchanged. |
| Scheduling.EndSweepIdempotent | gamja-market/apps/market-batch/src/main/kotlin/com/gamjamarket/batch/scheduler/AuctionScheduler.kt:46-73 | After the sweep no row is ON_GOING with its end before `now`, and a second sweep changes nothing. |
| Scheduling.EndSweepWithoutCandidates | gamja-market/apps/market-batch/src/main/kotlin/com/gamjamarket/batch/scheduler/AuctionScheduler.kt:51-53 | With no candidates the sweep leaves the table as it was. |
| Scheduling.SweepsAreDisjoint | gamja-market/apps/market-batch/src/main/kotlin/com/gamjamarket/batch/scheduler/AuctionScheduler.kt:26-49 | No row is a candidate of both the start sweep and the end sweep. |
| Scheduling.SweepsKeepTerminalRows | gamja-market/apps/market-batch/src/main/kotlin/com/gamjamarket/batch/scheduler/AuctionScheduler.kt:26-73 | Neither sweep changes a row whose stored status is terminal. |
| Scheduling.SweepsAgreeWithEffectiveStatus | gamja-market/libs/common-domain/src/main/kotlin/com/gamjamarket/domain/Auction.kt:36-50 | Take a table where every ON_GOING row has started, and run the start sweep and then the end sweep. Every stored status then equals its effective status. It also equals the old effective status, except that END_WITHOUT_BID becomes BID_COMPLETED for an auction with a bid. |
| Scheduling.AuctionScheduler.ProcessStartAuctions | gamja-market/apps/market-batch/src/main/kotlin/com/gamjamarket/batch/scheduler/AuctionScheduler.kt:22-37 | The table becomes the BEFORE_START to ON_GOING bulk update at `now`. The reported count is the number of rows matched. |
| Scheduling.AuctionScheduler.ProcessEndAuctions | gamja-market/apps/market-batch/src/main/kotlin/com/gamjamarket/batch/scheduler/AuctionScheduler.kt:42-75 | The table becomes `EndSweep` of the old table and the bid table. The reported count is the number of candidates. |
| Items.ResolveStart | gamja-market/apps/market-api/src/main/kotlin/com/gamjamarket/api/service/ItemService.kt:46-64 | A missing start means `now`. It is refused with StartInPast iff before `now`, and with StartTooLate iff after `now + 7 days`; both bounds are accepted. The status is BEFORE_START iff the start is after `now`, and ON_GOING iff the start is `now`. |
| Items.InitialStatusIsEffective | gamja-market/apps/market-api/src/main/kotlin/com/gamjamarket/api/service/ItemService.kt:59-87 | The stored initial status is what a reader sees at creation, provided the end has not passed. |
| Items.IndexImages | gamja-market/apps/market-api/src/main/kotlin/com/gamjamarket/api/service/ItemService.kt:90-99 | One image per URL, in order. Image `i` has sort order `i`, and exactly the first image is the thumbnail. |
| Items.ApplyUpdate | gamja-market/apps/market-api/src/main/kotlin/com/gamjamarket/api/service/ItemService.kt:172-178 | Each field the request gives replaces the item's, each absent field is kept, and the seller and deletion flag never change; an empty request changes nothing. |
| Items.ItemStore.Save | gamja-market/apps/market-api/src/main/kotlin/com/gamjamarket/api/service/ItemService.kt:67-75 | The item is stored under the next generated id, and the generator advances. |
| Items.ItemStore.Update | gamja-market/apps/market-api/src/main/kotlin/com/gamjamarket/api/service/ItemService.kt:172-178 | The item is written back under its id, and no other item changes. |
| Items.ItemImageStore.SaveAll | gamja-market/apps/market-api/src/main/kotlin/com/gamjamarket/api/service/ItemService.kt:90-99 | The new images are appended in order. |
| Items.ItemService.constructor | gamja-market/apps/market-api/src/main/kotlin/com/gamjamarket/api/service/ItemService.kt:29-37 | A service over empty item and auction tables satisfies its invariant. |
| Items.ItemService.CreateItem | gamja-market/apps/market-api/src/main/kotlin/com/gamjamarket/api/service/ItemService.kt:38-108 | Checks run in order: unknown seller, then unknown category, then the start-window errors. A failure changes no table. On success, one fresh id holds the item (not deleted) and its auction (resolved start, requested end, chosen status), followed by the indexed images. The response carries the id and status, and the service invariant is kept. |
| Items.ItemService.UpdateItem | gamja-market/apps/market-api/src/main/kotlin/com/gamjamarket/api/service/ItemService.kt:145-181 | Checks run in order, each as an iff: item missing, not the seller, auction has a bid, auction ended before `now`, unknown requested category. The edit succeeds iff every guard passes. A refusal leaves the items unchanged. On success only that item changes, and each given field replaces its old value. |
| Items.ItemService.DeleteItem | gamja-market/apps/market-api/src/main/kotlin/com/gamjamarket/api/service/ItemService.kt:184-223 | Checks run in order, each as an iff: item missing, not the seller, `now > endAt - 1h`. The withdrawal succeeds iff every guard passes. A refusal changes nothing. On success the item is marked deleted. The auction becomes CANCELLED iff it has a bid, and is otherwise unchanged. The outcome and the new state do not mention the cancel reason, so it has no effect. |

## Findings

| source | as written | input that shows it | evidently intended | confidence | as-written member | corrected member |
|---|---|---|---|---|---|---|
| gamja-market/apps/market-api/src/main/kotlin/com/gamjamarket/api/service/BidService.kt:61-81 | only the compare-and-raise script is atomic; the bid is saved in a later, separate step | on one auction, call A's script accepts 1200, call B's script accepts 1500, B saves, then A saves: the bid table holds 1500 before 1200 | the comment at line 61 promises full concurrency safety; bids recorded in rising price order per auction, as when each call runs as one step | medium, not executed (depends on the two requests overlapping) | Bidding.InterleavingCanReorderBids | Bidding.ReplayKeepsConsistent |

## Left out

- Concurrency: the Lua script is one atomic method (`RunBidScript`), and `PlaceBid`, `Admit` and `Consistent` treat a whole `placeBid` call as one step. The per-auction price ordering in `Consistent` depends on that: under interleaving only the marker bound survives (`Bidding.InterleaveKeepsBelowMarker`), and `Bidding.InterleavingCanReorderBids` shows the ordering can break. The interleaving model covers only bids against one fixed auction table; database transactions and isolation are not modelled.
- Bidding.BidService.PlaceBid: prices are unbounded integers. Neither `Long` overflow nor the Lua script's double-precision `tonumber` (exact only below 2^53) is modelled.
- Bidding.BidService.PlaceBid: the bid table append cannot fail here. So the marker left stale after a failed append, which has no reconciliation in the code, cannot arise.
- Bidding.BidService.GetBidHistory: returns the whole history as a sequence in append order. Pagination, the unspecified page order and the DTO mapping are not modelled.
- Timestamps the database assigns (`createdAt` on bids, items and responses) and `getReferenceById` are not modelled.
- Scheduling.AuctionScheduler.ProcessStartAuctions: the bulk update cannot throw here, so the catch-and-log branch is not modelled. Logging and the cron cadence are left out too.
- Notifications and the reputation penalty for a "simple change of mind" cancellation are TODO no-ops in the code. So is the lookup of distinct bidder ids that feeds them. None are modelled.
- Items.ItemService.UpdateItem: `Item.update` is not part of this model. The model replaces each field the request gives; the image URLs of an edit are not applied.
- User and category lookups are modelled as fixed sets of existing ids held by `ItemService`. Users and categories are otherwise not modelled.
- `getItems` and `getItemDetail`: pagination, response shaping and the Redis view counter are not modelled.
- HTTP controllers and the application bootstrap are not modelled.
- Bidding.BidService.constructor: a new service starts with no markers and the code never rebuilds them from the bid table, so over a non-empty bid table the fresh service is not consistent (a bid below an already recorded price can be accepted). The constructor promises consistency only over an empty bid table.
- Bidding.ReplayKeepsConsistent: the sequence of bid calls runs against one fixed auction table. Interleaving with item edits and sweeps is covered only by `AdmitKeepsConsistent`, which holds for any table.
