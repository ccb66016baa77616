/**
 * The auction table: the bulk status update that starts auctions and the
 * two filter queries the scheduler and the listings use.
 */
module AuctionRepository {
  import opened Domain

  /** The durable auction table, keyed by auction id. */
  class AuctionStore {
    var rows: map<AuctionId, Auction>

    constructor ()
      ensures rows == map[]
    {
      rows := map[];
    }

    /** `save` of an auction row under its id. */
    method Save(id: AuctionId, auction: Auction)
      modifies this
      ensures rows == old(rows)[id := auction]
    {
      rows := rows[id := auction];
    }

    /**
     * `updateAuctionStatusToOngoing`: one set-based UPDATE that moves every
     * row stored in `oldStatus` whose start has come to `newStatus`, and
     * reports how many rows it touched.
     */
    method UpdateAuctionStatusToOngoing(now: Time, oldStatus: AuctionStatus := BeforeStart,
                                        newStatus: AuctionStatus := OnGoing)
      returns (updatedCount: nat)
      modifies this
      ensures rows == BulkUpdate(old(rows), oldStatus, newStatus, now)
      ensures updatedCount == |Matching(old(rows), oldStatus, now)|
    {
      updatedCount := |Matching(rows, oldStatus, now)|;
      rows := BulkUpdate(rows, oldStatus, newStatus, now);
    }
  }

  /** The WHERE clause of the bulk update: stored in `oldStatus` and `startAt <= now`. */
  predicate IsDue(a: Auction, oldStatus: AuctionStatus, now: Time) {
    a.status == oldStatus && a.startAt <= now
  }

  /** The ids of the rows the bulk update touches. */
  function Matching(rows: map<AuctionId, Auction>, oldStatus: AuctionStatus, now: Time): (ids: set<AuctionId>)
    ensures ids <= rows.Keys
    ensures forall id :: id in ids <==> id in rows && rows[id].status == oldStatus && rows[id].startAt <= now
  {
    set id | id in rows && IsDue(rows[id], oldStatus, now)
  }

  /** The table after the bulk update: the matching rows get `newStatus`, every other column and row is kept. */
  function BulkUpdate(rows: map<AuctionId, Auction>, oldStatus: AuctionStatus, newStatus: AuctionStatus,
                      now: Time): (r: map<AuctionId, Auction>)
    ensures r.Keys == rows.Keys
    ensures forall id :: id in rows && !IsDue(rows[id], oldStatus, now) ==> r[id] == rows[id]
    ensures forall id :: id in rows && IsDue(rows[id], oldStatus, now) ==>
      r[id] == rows[id].(status := newStatus)
  {
    map id | id in rows :: if IsDue(rows[id], oldStatus, now) then rows[id].(status := newStatus) else rows[id]
  }

  /**
   * Running the bulk update again with the same `now` matches no row and
   * changes nothing (when it moves rows to a different status).
   */
  lemma BulkUpdateIdempotent(rows: map<AuctionId, Auction>, oldStatus: AuctionStatus,
                             newStatus: AuctionStatus, now: Time)
    requires oldStatus != newStatus
    ensures Matching(BulkUpdate(rows, oldStatus, newStatus, now), oldStatus, now) == {}
    ensures BulkUpdate(BulkUpdate(rows, oldStatus, newStatus, now), oldStatus, newStatus, now)
         == BulkUpdate(rows, oldStatus, newStatus, now)
  {
    var once := BulkUpdate(rows, oldStatus, newStatus, now);
    forall id | id in once ensures !IsDue(once[id], oldStatus, now) {
    }
  }

  /**
   * After a start sweep at `now`, no row is left stored BEFORE_START with a
   * start at or before `now`; rows stored BEFORE_START afterwards are
   * exactly the ones whose start lies after `now`.
   */
  lemma StartSweepLeavesOnlyFutureStarts(rows: map<AuctionId, Auction>, now: Time)
    ensures var r := BulkUpdate(rows, BeforeStart, OnGoing, now);
      forall id :: id in r && r[id].status == BeforeStart <==>
        id in rows && rows[id].status == BeforeStart && now < rows[id].startAt
  {
  }

  /** `findAllByAuctionStatus`: the rows stored in `status`. */
  function FindAllByAuctionStatus(rows: map<AuctionId, Auction>, status: AuctionStatus): (r: map<AuctionId, Auction>)
    ensures r.Keys <= rows.Keys
    ensures forall id :: id in r ==> r[id] == rows[id] && r[id].status == status
    ensures forall id :: id in rows && rows[id].status == status ==> id in r
  {
    map id | id in rows && rows[id].status == status :: rows[id]
  }

  /** `findAllByAuctionStatusAndEndAtBefore`: the rows stored in `status` whose end lies strictly before `dateTime`. */
  function FindAllByAuctionStatusAndEndAtBefore(rows: map<AuctionId, Auction>, status: AuctionStatus,
                                               dateTime: Time): (r: map<AuctionId, Auction>)
    ensures r.Keys <= rows.Keys
    ensures forall id :: id in r ==> r[id] == rows[id] && r[id].status == status && r[id].endAt < dateTime
    ensures forall id :: id in rows && rows[id].status == status && rows[id].endAt < dateTime ==> id in r
  {
    map id | id in rows && rows[id].status == status && rows[id].endAt < dateTime :: rows[id]
  }
}
