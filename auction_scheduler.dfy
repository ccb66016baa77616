/**
 * The lifecycle scheduler: a start sweep that promotes auctions whose start
 * has come, and an end sweep that closes running auctions whose end has
 * passed, as BID_COMPLETED when they have a bid and END_WITHOUT_BID
 * otherwise. Both sweeps take the current time as a parameter.
 */
module Scheduling {
  import opened Domain
  import opened BidRepository
  import opened AuctionRepository

  /** The status the end sweep gives a closing auction. */
  function ClosingStatus(hasBid: bool): (s: AuctionStatus)
    ensures s.IsTerminal() && s != Cancelled
    ensures s == BidCompleted <==> hasBid
  {
    if hasBid then BidCompleted else EndWithoutBid
  }

  /** The ids the end sweep selects: stored ON_GOING with the end strictly before `now`. */
  function EndDue(rows: map<AuctionId, Auction>, now: Time): (ids: set<AuctionId>)
    ensures forall id :: id in ids <==> id in rows && rows[id].status == OnGoing && rows[id].endAt < now
  {
    FindAllByAuctionStatusAndEndAtBefore(rows, OnGoing, now).Keys
  }

  /**
   * The auction table after an end sweep at `now` over the bid table `bids`:
   * each candidate is closed according to whether it has a bid of its own,
   * and every other row is left as it was.
   */
  function EndSweep(rows: map<AuctionId, Auction>, bids: seq<Bid>, now: Time): (r: map<AuctionId, Auction>)
    ensures r.Keys == rows.Keys
    ensures forall id :: id in rows && id !in EndDue(rows, now) ==> r[id] == rows[id]
    ensures forall id :: id in EndDue(rows, now) ==>
      r[id] == rows[id].(status := ClosingStatus(ExistsByAuctionId(bids, id)))
  {
    map id | id in rows ::
      if rows[id].status == OnGoing && rows[id].endAt < now
      then rows[id].(status := ClosingStatus(ExistsByAuctionId(bids, id)))
      else rows[id]
  }

  /**
   * After an end sweep no row is left ON_GOING with its end before `now`,
   * and a second sweep with the same time and bid table changes nothing.
   */
  lemma EndSweepIdempotent(rows: map<AuctionId, Auction>, bids: seq<Bid>, now: Time)
    ensures EndDue(EndSweep(rows, bids, now), now) == {}
    ensures EndSweep(EndSweep(rows, bids, now), bids, now) == EndSweep(rows, bids, now)
  {
    var once := EndSweep(rows, bids, now);
    forall id | id in once ensures !(once[id].status == OnGoing && once[id].endAt < now) {
    }
  }

  /** A sweep with nothing to close leaves the table as it was. */
  lemma EndSweepWithoutCandidates(rows: map<AuctionId, Auction>, bids: seq<Bid>, now: Time)
    requires EndDue(rows, now) == {}
    ensures EndSweep(rows, bids, now) == rows
  {
    var r := EndSweep(rows, bids, now);
    forall id | id in rows ensures r[id] == rows[id] {
      assert id !in EndDue(rows, now);
    }
  }

  /** The sweeps select rows by different stored statuses, so no row is a candidate of both. */
  lemma SweepsAreDisjoint(rows: map<AuctionId, Auction>, now: Time)
    ensures Matching(rows, BeforeStart, now) !! EndDue(rows, now)
  {
    forall id | id in Matching(rows, BeforeStart, now) ensures id !in EndDue(rows, now) {
      assert rows[id].status == BeforeStart;
    }
  }

  /**
   * A start sweep followed by an end sweep at `now` never changes what a
   * reader sees at `now`, except that the display-only END_WITHOUT_BID is
   * refined to BID_COMPLETED for an auction with a bid; afterwards the stored
   * status is exactly what a reader sees. This needs every row stored
   * ON_GOING to have started by `now`, which item creation guarantees.
   */
  lemma SweepsAgreeWithEffectiveStatus(rows: map<AuctionId, Auction>, bids: seq<Bid>, now: Time)
    requires forall id :: id in rows && rows[id].status == OnGoing ==> rows[id].startAt <= now
    ensures var swept := EndSweep(BulkUpdate(rows, BeforeStart, OnGoing, now), bids, now);
      && swept.Keys == rows.Keys
      && (forall id :: id in swept ==> EffectiveStatus(swept[id], now) == swept[id].status)
      && (forall id :: id in rows ==>
            swept[id].status ==
              if !rows[id].status.IsTerminal() && EffectiveStatus(rows[id], now) == EndWithoutBid
              then ClosingStatus(ExistsByAuctionId(bids, id))
              else EffectiveStatus(rows[id], now))
  {
    var started := BulkUpdate(rows, BeforeStart, OnGoing, now);
    var swept := EndSweep(started, bids, now);
    forall id | id in rows
      ensures EffectiveStatus(swept[id], now) == swept[id].status
      ensures swept[id].status ==
              if !rows[id].status.IsTerminal() && EffectiveStatus(rows[id], now) == EndWithoutBid
              then ClosingStatus(ExistsByAuctionId(bids, id))
              else EffectiveStatus(rows[id], now)
    {
      var a := rows[id];
      if a.status == BeforeStart && a.startAt <= now {
        assert started[id] == a.(status := OnGoing);
      } else {
        assert started[id] == a;
      }
    }
  }

  /** Neither sweep touches a row whose stored status is terminal: no transition leaves a terminal status. */
  lemma SweepsKeepTerminalRows(rows: map<AuctionId, Auction>, bids: seq<Bid>, now: Time, id: AuctionId)
    requires id in rows && rows[id].status.IsTerminal()
    ensures BulkUpdate(rows, BeforeStart, OnGoing, now)[id] == rows[id]
    ensures EndSweep(BulkUpdate(rows, BeforeStart, OnGoing, now), bids, now)[id] == rows[id]
  {
  }

  /** `AuctionScheduler`: the two sweeps over the auction table, reading the bid table. */
  class AuctionScheduler {
    const auctionRepository: AuctionStore
    const bidRepository: BidLedger

    constructor (auctionRepository: AuctionStore, bidRepository: BidLedger)
      ensures this.auctionRepository == auctionRepository && this.bidRepository == bidRepository
    {
      this.auctionRepository := auctionRepository;
      this.bidRepository := bidRepository;
    }

    /**
     * `processStartAuctions`: delegates to the bulk update with its default
     * statuses (BEFORE_START to ON_GOING) and reports the count it logs.
     */
    method ProcessStartAuctions(now: Time) returns (updatedCount: nat)
      modifies auctionRepository
      ensures auctionRepository.rows == BulkUpdate(old(auctionRepository.rows), BeforeStart, OnGoing, now)
      ensures updatedCount == |Matching(old(auctionRepository.rows), BeforeStart, now)|
    {
      updatedCount := auctionRepository.UpdateAuctionStatusToOngoing(now := now);
    }

    /**
     * `processEndAuctions`: selects the candidates once, looks up in one
     * query which of them have bids, and closes each candidate in turn;
     * reports the number of candidates it logs.
     */
    method ProcessEndAuctions(now: Time) returns (processed: nat)
      modifies auctionRepository
      ensures auctionRepository.rows == EndSweep(old(auctionRepository.rows), bidRepository.bids, now)
      ensures processed == |EndDue(old(auctionRepository.rows), now)|
    {
      var targetAuctions := FindAllByAuctionStatusAndEndAtBefore(auctionRepository.rows, OnGoing, now);
      var auctionIds := targetAuctions.Keys;
      if auctionIds == {} {
        EndSweepWithoutCandidates(auctionRepository.rows, bidRepository.bids, now);
        return 0;
      }
      var idsWithBids := set id | id in FindAuctionIdsWithBidsIn(bidRepository.bids, auctionIds);
      var todo := auctionIds;
      while todo != {}
        invariant todo <= auctionIds
        invariant auctionRepository.rows.Keys == old(auctionRepository.rows).Keys
        invariant forall id :: id in old(auctionRepository.rows) ==>
          auctionRepository.rows[id] ==
            if id in auctionIds && id !in todo
            then targetAuctions[id].(status := ClosingStatus(id in idsWithBids))
            else old(auctionRepository.rows)[id]
        decreases todo
      {
        var auctionId :| auctionId in todo;
        var auction := targetAuctions[auctionId];
        var bidExist := auctionId in idsWithBids;
        if bidExist {
          auction := auction.(status := BidCompleted);
        } else {
          auction := auction.(status := EndWithoutBid);
        }
        auctionRepository.rows := auctionRepository.rows[auctionId := auction];
        todo := todo - {auctionId};
      }
      processed := |auctionIds|;
    }
  }
}
