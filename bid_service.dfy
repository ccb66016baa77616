/**
 * Bid admission. A bid passes four guards against the auction row, then an
 * atomic compare-and-raise on the per-auction highest-bid marker (a Lua
 * script run inside the key-value store), and only then is appended to the
 * bid table.
 *
 * `Admit` is the admission as a function of the marker map and the bid table;
 * `BidService.PlaceBid` is the step-by-step method and is proved to compute it.
 */
module Bidding {
  import opened Wrappers
  import opened Domain
  import opened BidRepository
  import opened AuctionRepository

  /** The distinct exceptions `placeBid` and `getBidHistory` raise. */
  datatype BidError =
    | AuctionNotFound   // no auction row with that id
    | OwnItem           // the bidder is the seller of the item
    | AuctionEnded      // the auction's end lies strictly before now
    | BelowStartPrice   // the price is below the start price
    | NotAboveHighest   // the script refused: the price does not exceed the marker

  /** What a successful bid reports back. */
  datatype BidResponse = BidResponse(currentHighestPrice: int)

  /** The marker map (key `auction:{id}:highest_bid`) and the bid table, as values. */
  datatype Ledger = Ledger(highest: map<AuctionId, int>, bids: seq<Bid>)

  /** The state after one admission attempt, and what the caller gets. */
  datatype Admission = Admission(ledger: Ledger, result: Result<BidResponse, BidError>)

  /** The marker's value as the script reads it: an absent key counts as 0. */
  function CurrentHighest(highest: map<AuctionId, int>, auctionId: AuctionId): int {
    if auctionId in highest then highest[auctionId] else 0
  }

  /**
   * One call of `placeBid` at time `now` against the auction table
   * `auctions`: the guards in their order, then the compare-and-raise, then
   * the append.
   */
  function Admit(auctions: map<AuctionId, Auction>, s: Ledger, auctionId: AuctionId, bidderId: UserId,
                 bidPrice: int, now: Time): (r: Admission)
    ensures r.result.Failure? ==> r.ledger == s
    ensures r.result == Failure(AuctionNotFound) <==> auctionId !in auctions
    ensures r.result == Failure(OwnItem) <==>
      auctionId in auctions && auctions[auctionId].sellerId == bidderId
    ensures r.result == Failure(AuctionEnded) <==>
      auctionId in auctions && auctions[auctionId].sellerId != bidderId && auctions[auctionId].endAt < now
    ensures r.result == Failure(BelowStartPrice) <==>
      auctionId in auctions && auctions[auctionId].sellerId != bidderId && now <= auctions[auctionId].endAt
      && bidPrice < auctions[auctionId].startPrice
    ensures r.result == Failure(NotAboveHighest) <==>
      auctionId in auctions && auctions[auctionId].sellerId != bidderId && now <= auctions[auctionId].endAt
      && auctions[auctionId].startPrice <= bidPrice && bidPrice <= CurrentHighest(s.highest, auctionId)
    ensures r.result.Success? ==>
      && r.result.value.currentHighestPrice == bidPrice
      && r.ledger.highest == s.highest[auctionId := bidPrice]
      && r.ledger.bids == s.bids + [Bid(auctionId, bidderId, bidPrice)]
  {
    if auctionId !in auctions then Admission(s, Failure(AuctionNotFound))
    else
      var auction := auctions[auctionId];
      if auction.sellerId == bidderId then Admission(s, Failure(OwnItem))
      else if auction.endAt < now then Admission(s, Failure(AuctionEnded))
      else if bidPrice < auction.startPrice then Admission(s, Failure(BelowStartPrice))
      else if !(bidPrice > CurrentHighest(s.highest, auctionId)) then Admission(s, Failure(NotAboveHighest))
      else
        var newBid := Bid(auctionId, bidderId, bidPrice);
        Admission(Ledger(s.highest[auctionId := bidPrice], s.bids + [newBid]), Success(BidResponse(newBid.bidPrice)))
  }

  /**
   * The invariant admission keeps: per auction the recorded prices strictly
   * increase in append order, every recorded price is at most the marker,
   * and every marker value is the price of a recorded bid of its auction.
   */
  ghost predicate Consistent(s: Ledger) {
    && IncreasingPerAuction(s.bids)
    && (forall i :: 0 <= i < |s.bids| ==>
          s.bids[i].auctionId in s.highest && s.bids[i].bidPrice <= s.highest[s.bids[i].auctionId])
    && (forall id :: id in s.highest ==>
          exists i :: 0 <= i < |s.bids| && s.bids[i].auctionId == id && s.bids[i].bidPrice == s.highest[id])
  }

  /** Every admission attempt, accepted or not, keeps the invariant. */
  lemma AdmitKeepsConsistent(auctions: map<AuctionId, Auction>, s: Ledger, auctionId: AuctionId,
                             bidderId: UserId, bidPrice: int, now: Time)
    requires Consistent(s)
    ensures Consistent(Admit(auctions, s, auctionId, bidderId, bidPrice, now).ledger)
  {
    var r := Admit(auctions, s, auctionId, bidderId, bidPrice, now);
    if r.result.Success? {
      var t := r.ledger;
      var n := |s.bids|;
      assert |t.bids| == n + 1 && t.bids[n] == Bid(auctionId, bidderId, bidPrice);
      assert forall i :: 0 <= i < n ==> t.bids[i] == s.bids[i];
      forall i | 0 <= i < n && s.bids[i].auctionId == auctionId
        ensures s.bids[i].bidPrice < bidPrice
      {
        assert s.bids[i].bidPrice <= CurrentHighest(s.highest, auctionId);
      }
      assert IncreasingPerAuction(t.bids) by {
        forall i, j | 0 <= i < j < |t.bids| && t.bids[i].auctionId == t.bids[j].auctionId
          ensures t.bids[i].bidPrice < t.bids[j].bidPrice
        {
          if j == n {
            assert t.bids[i] == s.bids[i];
          } else {
            assert t.bids[i] == s.bids[i] && t.bids[j] == s.bids[j];
          }
        }
      }
      forall i | 0 <= i < |t.bids|
        ensures t.bids[i].auctionId in t.highest && t.bids[i].bidPrice <= t.highest[t.bids[i].auctionId]
      {
        if i < n {
          assert t.bids[i] == s.bids[i];
        }
      }
      forall id | id in t.highest
        ensures exists i :: 0 <= i < |t.bids| && t.bids[i].auctionId == id && t.bids[i].bidPrice == t.highest[id]
      {
        if id == auctionId {
          assert t.bids[n].auctionId == id && t.bids[n].bidPrice == t.highest[id];
        } else {
          var i :| 0 <= i < n && s.bids[i].auctionId == id && s.bids[i].bidPrice == s.highest[id];
          assert t.bids[i] == s.bids[i];
        }
      }
    }
  }

  /** Under the invariant, the marker holds a key exactly for the auctions the bid table has bids for. */
  lemma MarkerMatchesBidTable(s: Ledger, auctionId: AuctionId)
    requires Consistent(s)
    ensures auctionId in s.highest <==> ExistsByAuctionId(s.bids, auctionId)
    ensures forall b :: b in FindByAuctionId(s.bids, auctionId) ==> b.bidPrice <= CurrentHighest(s.highest, auctionId)
  {
    forall b | b in FindByAuctionId(s.bids, auctionId)
      ensures b.bidPrice <= CurrentHighest(s.highest, auctionId)
    {
      var i :| 0 <= i < |s.bids| && s.bids[i] == b;
    }
  }

  /** A bid equal to the current highest is refused, and nothing changes. */
  lemma EqualBidRejected(auctions: map<AuctionId, Auction>, s: Ledger, auctionId: AuctionId,
                         bidderId: UserId, now: Time)
    ensures var r := Admit(auctions, s, auctionId, bidderId, CurrentHighest(s.highest, auctionId), now);
      r.result.Failure? && r.ledger == s
  {
  }

  /**
   * Of two submissions of the same price on one auction, the second is
   * refused once the first has been accepted, whoever places it and whenever.
   */
  lemma AtMostOneWinnerPerPrice(auctions: map<AuctionId, Auction>, s: Ledger, auctionId: AuctionId,
                                bidder1: UserId, bidder2: UserId, price: int, now1: Time, now2: Time)
    requires Admit(auctions, s, auctionId, bidder1, price, now1).result.Success?
    ensures var s1 := Admit(auctions, s, auctionId, bidder1, price, now1).ledger;
      Admit(auctions, s1, auctionId, bidder2, price, now2).result.Failure?
  {
  }

  /**
   * The end-time guard and the end sweep use the same strict comparison: an
   * auction that accepts a bid at `now` is not among the auctions the end
   * sweep at `now` closes.
   */
  lemma AcceptedBidNotClosedBySweep(auctions: map<AuctionId, Auction>, s: Ledger, auctionId: AuctionId,
                                    bidderId: UserId, bidPrice: int, now: Time)
    requires Admit(auctions, s, auctionId, bidderId, bidPrice, now).result.Success?
    ensures auctionId !in FindAllByAuctionStatusAndEndAtBefore(auctions, OnGoing, now)
  {
  }

  /**
   * Admission never looks at the stored status: a bid on an auction that has
   * not started, or has been closed or cancelled, is judged only by the
   * seller, end time, start price and marker.
   */
  lemma AdmitIgnoresStoredStatus(auctions: map<AuctionId, Auction>, s: Ledger, auctionId: AuctionId,
                                 bidderId: UserId, bidPrice: int, now: Time, status: AuctionStatus)
    requires auctionId in auctions
    ensures Admit(auctions[auctionId := auctions[auctionId].(status := status)], s, auctionId, bidderId, bidPrice, now)
         == Admit(auctions, s, auctionId, bidderId, bidPrice, now)
  {
  }

  /** An accepted bid extends its auction's history by exactly that bid, and leaves other histories alone. */
  lemma AcceptedBidExtendsHistory(auctions: map<AuctionId, Auction>, s: Ledger, auctionId: AuctionId,
                                  bidderId: UserId, bidPrice: int, now: Time, other: AuctionId)
    requires Admit(auctions, s, auctionId, bidderId, bidPrice, now).result.Success?
    ensures var t := Admit(auctions, s, auctionId, bidderId, bidPrice, now).ledger;
      && FindByAuctionId(t.bids, auctionId) == FindByAuctionId(s.bids, auctionId) + [Bid(auctionId, bidderId, bidPrice)]
      && (other != auctionId ==> FindByAuctionId(t.bids, other) == FindByAuctionId(s.bids, other))
  {
    FindByAuctionIdAppend(s.bids, Bid(auctionId, bidderId, bidPrice), auctionId);
    FindByAuctionIdAppend(s.bids, Bid(auctionId, bidderId, bidPrice), other);
  }

  /** One `placeBid` call as data. */
  datatype BidRequest = BidRequest(auctionId: AuctionId, bidderId: UserId, bidPrice: int, now: Time)

  /** The marker map and bid table after a sequence of `placeBid` calls, each admitted or refused in turn. */
  function Replay(auctions: map<AuctionId, Auction>, s: Ledger, reqs: seq<BidRequest>): Ledger
    decreases |reqs|
  {
    if reqs == [] then s
    else
      var q := reqs[0];
      Replay(auctions, Admit(auctions, s, q.auctionId, q.bidderId, q.bidPrice, q.now).ledger, reqs[1..])
  }

  /**
   * Over any sequence of `placeBid` calls, each run as one step, a consistent
   * marker store and bid table stay consistent.
   */
  lemma {:induction false} ReplayKeepsConsistent(auctions: map<AuctionId, Auction>, s: Ledger, reqs: seq<BidRequest>)
    requires Consistent(s)
    ensures Consistent(Replay(auctions, s, reqs))
    decreases |reqs|
  {
    if reqs != [] {
      var q := reqs[0];
      AdmitKeepsConsistent(auctions, s, q.auctionId, q.bidderId, q.bidPrice, q.now);
      ReplayKeepsConsistent(auctions, Admit(auctions, s, q.auctionId, q.bidderId, q.bidPrice, q.now).ledger, reqs[1..]);
    }
  }

  /**
   * From an empty marker store and bid table, any sequence of `placeBid`
   * calls leaves each auction's recorded prices strictly increasing and never
   * above its marker.
   */
  lemma ReplayFromEmpty(auctions: map<AuctionId, Auction>, reqs: seq<BidRequest>)
    ensures Consistent(Replay(auctions, Ledger(map[], []), reqs))
  {
    ReplayKeepsConsistent(auctions, Ledger(map[], []), reqs);
  }

  /**
   * Overlapping `placeBid` calls. Only the script is atomic: a call that has
   * passed the guards and raised the marker saves its bid in a later,
   * separate step, so other calls may run in between. `pending` holds the
   * bids whose script has succeeded but whose save has not happened yet.
   */
  datatype InFlight = InFlight(ledger: Ledger, pending: seq<Bid>)

  /** The guards and the script of one call; an accepted bid waits to be saved. */
  function Reserve(auctions: map<AuctionId, Auction>, t: InFlight, q: BidRequest): (r: InFlight)
    ensures r.ledger.bids == t.ledger.bids
    ensures Admit(auctions, t.ledger, q.auctionId, q.bidderId, q.bidPrice, q.now).result.Success? ==>
      r.ledger.highest == t.ledger.highest[q.auctionId := q.bidPrice]
      && r.pending == t.pending + [Bid(q.auctionId, q.bidderId, q.bidPrice)]
    ensures Admit(auctions, t.ledger, q.auctionId, q.bidderId, q.bidPrice, q.now).result.Failure? ==> r == t
  {
    var a := Admit(auctions, t.ledger, q.auctionId, q.bidderId, q.bidPrice, q.now);
    if a.result.Success? then
      InFlight(Ledger(a.ledger.highest, t.ledger.bids), t.pending + [Bid(q.auctionId, q.bidderId, q.bidPrice)])
    else t
  }

  /** The save of the `i`-th waiting bid (nothing happens for an index with no waiting bid). */
  function Commit(t: InFlight, i: nat): (r: InFlight)
    ensures r.ledger.highest == t.ledger.highest
    ensures i < |t.pending| ==>
      r.ledger.bids == t.ledger.bids + [t.pending[i]] && r.pending == t.pending[..i] + t.pending[i + 1..]
    ensures i >= |t.pending| ==> r == t
  {
    if i < |t.pending| then
      InFlight(Ledger(t.ledger.highest, t.ledger.bids + [t.pending[i]]), t.pending[..i] + t.pending[i + 1..])
    else t
  }

  /** One step of an interleaving: some call runs its script, or some waiting bid is saved. */
  datatype Step = ReserveStep(q: BidRequest) | CommitStep(i: nat)

  function Interleave(auctions: map<AuctionId, Auction>, t: InFlight, steps: seq<Step>): InFlight
    decreases |steps|
  {
    if steps == [] then t
    else
      var t' := match steps[0]
        case ReserveStep(q) => Reserve(auctions, t, q)
        case CommitStep(i) => Commit(t, i);
      Interleave(auctions, t', steps[1..])
  }

  /** The bound that survives interleaving: every saved or waiting bid is at most its auction's marker. */
  ghost predicate BelowMarker(t: InFlight) {
    forall b :: b in t.ledger.bids || b in t.pending ==>
      b.auctionId in t.ledger.highest && b.bidPrice <= t.ledger.highest[b.auctionId]
  }

  lemma ReserveKeepsBelowMarker(auctions: map<AuctionId, Auction>, t: InFlight, q: BidRequest)
    requires BelowMarker(t)
    ensures BelowMarker(Reserve(auctions, t, q))
  {
    var a := Admit(auctions, t.ledger, q.auctionId, q.bidderId, q.bidPrice, q.now);
    if a.result.Success? {
      var r := Reserve(auctions, t, q);
      forall b | b in r.ledger.bids || b in r.pending
        ensures b.auctionId in r.ledger.highest && b.bidPrice <= r.ledger.highest[b.auctionId]
      {
        if b.auctionId == q.auctionId && (b in t.ledger.bids || b in t.pending) {
          assert b.bidPrice <= CurrentHighest(t.ledger.highest, q.auctionId);
        }
      }
    }
  }

  lemma CommitKeepsBelowMarker(t: InFlight, i: nat)
    requires BelowMarker(t)
    ensures BelowMarker(Commit(t, i))
  {
    if i < |t.pending| {
      var r := Commit(t, i);
      forall b | b in r.pending ensures b in t.pending {
        assert t.pending == t.pending[..i] + [t.pending[i]] + t.pending[i + 1..];
      }
    }
  }

  /** Under any interleaving of scripts and saves, no recorded price exceeds its auction's marker. */
  lemma {:induction false} InterleaveKeepsBelowMarker(auctions: map<AuctionId, Auction>, t: InFlight, steps: seq<Step>)
    requires BelowMarker(t)
    ensures BelowMarker(Interleave(auctions, t, steps))
    decreases |steps|
  {
    if steps != [] {
      var t' := match steps[0]
        case ReserveStep(q) => Reserve(auctions, t, q)
        case CommitStep(i) => Commit(t, i);
      match steps[0] {
        case ReserveStep(q) => ReserveKeepsBelowMarker(auctions, t, q);
        case CommitStep(i) => CommitKeepsBelowMarker(t, i);
      }
      InterleaveKeepsBelowMarker(auctions, t', steps[1..]);
    }
  }

  /**
   * The per-auction ordering of the bid table does not survive interleaving:
   * two calls whose scripts accept 1200 and then 1500 can save 1500 first and
   * 1200 second.
   */
  lemma InterleavingCanReorderBids()
    ensures var auctions := map[1 := Auction(0, 1000, None, 0, 100, OnGoing)];
      var steps := [ReserveStep(BidRequest(1, 7, 1200, 10)), ReserveStep(BidRequest(1, 8, 1500, 10)),
                    CommitStep(1), CommitStep(0)];
      var t := Interleave(auctions, InFlight(Ledger(map[], []), []), steps);
      && t.ledger.bids == [Bid(1, 8, 1500), Bid(1, 7, 1200)]
      && t.pending == []
      && !IncreasingPerAuction(t.ledger.bids)
  {
    var auctions := map[1 := Auction(0, 1000, None, 0, 100, OnGoing)];
    var t0 := InFlight(Ledger(map[], []), []);
    var t1 := Reserve(auctions, t0, BidRequest(1, 7, 1200, 10));
    assert t1 == InFlight(Ledger(map[1 := 1200], []), [Bid(1, 7, 1200)]);
    var t2 := Reserve(auctions, t1, BidRequest(1, 8, 1500, 10));
    assert t2 == InFlight(Ledger(map[1 := 1500], []), [Bid(1, 7, 1200), Bid(1, 8, 1500)]);
    var t3 := Commit(t2, 1);
    assert t3 == InFlight(Ledger(map[1 := 1500], [Bid(1, 8, 1500)]), [Bid(1, 7, 1200)]);
    var t4 := Commit(t3, 0);
    assert t4 == InFlight(Ledger(map[1 := 1500], [Bid(1, 8, 1500), Bid(1, 7, 1200)]), []);
    var steps := [ReserveStep(BidRequest(1, 7, 1200, 10)), ReserveStep(BidRequest(1, 8, 1500, 10)),
                  CommitStep(1), CommitStep(0)];
    assert Interleave(auctions, t0, steps) == t4 by {
      assert steps[1..] == [ReserveStep(BidRequest(1, 8, 1500, 10)), CommitStep(1), CommitStep(0)];
      assert steps[1..][1..] == [CommitStep(1), CommitStep(0)];
      assert steps[1..][1..][1..] == [CommitStep(0)];
      assert steps[1..][1..][1..][1..] == [];
    }
    assert t4.ledger.bids[0].bidPrice > t4.ledger.bids[1].bidPrice;
  }

  /** `BidService`: the marker store it owns, and the two tables it reads and appends to. */
  class BidService {
    /** The key-value store's highest-bid markers, by auction id. */
    var highest: map<AuctionId, int>
    const auctionRepository: AuctionStore
    const bidRepository: BidLedger

    constructor (auctionRepository: AuctionStore, bidRepository: BidLedger)
      ensures this.auctionRepository == auctionRepository && this.bidRepository == bidRepository
      ensures highest == map[]
      ensures bidRepository.bids == [] ==> Valid()
    {
      this.auctionRepository := auctionRepository;
      this.bidRepository := bidRepository;
      highest := map[];
    }

    ghost predicate Valid()
      reads this, bidRepository
    {
      Consistent(Ledger(highest, bidRepository.bids))
    }

    /**
     * The Lua script, run atomically by the store: read the marker (0 when
     * absent); if the bid is strictly greater, write it and return 1,
     * otherwise return 0 and write nothing.
     */
    method RunBidScript(auctionId: AuctionId, bidPrice: int) returns (result: int)
      modifies this`highest
      ensures result == 1 <==> bidPrice > CurrentHighest(old(highest), auctionId)
      ensures result == 0 || result == 1
      ensures highest == if result == 1 then old(highest)[auctionId := bidPrice] else old(highest)
    {
      var currentHighest := if auctionId in highest then highest[auctionId] else 0;
      if bidPrice > currentHighest {
        highest := highest[auctionId := bidPrice];
        result := 1;
      } else {
        result := 0;
      }
    }

    /** `placeBid`: computes `Admit` on the live marker store and bid table, and keeps the invariant. */
    method PlaceBid(auctionId: AuctionId, bidderId: UserId, bidPrice: int, now: Time)
      returns (r: Result<BidResponse, BidError>)
      modifies this, bidRepository
      ensures Admission(Ledger(highest, bidRepository.bids), r)
           == Admit(auctionRepository.rows, Ledger(old(highest), old(bidRepository.bids)), auctionId, bidderId, bidPrice, now)
      ensures old(Valid()) ==> Valid()
    {
      ghost var before := Ledger(highest, bidRepository.bids);
      if Valid() {
        AdmitKeepsConsistent(auctionRepository.rows, before, auctionId, bidderId, bidPrice, now);
      }
      if auctionId !in auctionRepository.rows {
        return Failure(AuctionNotFound);
      }
      var auction := auctionRepository.rows[auctionId];
      if auction.sellerId == bidderId {
        return Failure(OwnItem);
      }
      if auction.endAt < now {
        return Failure(AuctionEnded);
      }
      if bidPrice < auction.startPrice {
        return Failure(BelowStartPrice);
      }
      var result := RunBidScript(auctionId, bidPrice);
      if result == 0 {
        return Failure(NotAboveHighest);
      }
      var newBid := Bid(auctionId, bidderId, bidPrice);
      bidRepository.Save(newBid);
      r := Success(BidResponse(newBid.bidPrice));
    }

    /** `getBidHistory`: the auction must exist; its bids are read from the bid table only. */
    method GetBidHistory(auctionId: AuctionId) returns (r: Result<seq<Bid>, BidError>)
      ensures r.Failure? <==> auctionId !in auctionRepository.rows
      ensures r.Failure? ==> r.error == AuctionNotFound
      ensures r.Success? ==> forall b :: b in r.value <==> b in bidRepository.bids && b.auctionId == auctionId
      ensures r.Success? ==> r.value == FindByAuctionId(bidRepository.bids, auctionId)
      ensures r.Success? && Valid() ==> PricesIncrease(r.value)
    {
      if auctionId !in auctionRepository.rows {
        return Failure(AuctionNotFound);
      }
      var history := FindByAuctionId(bidRepository.bids, auctionId);
      if Valid() {
        HistoryIsIncreasing(bidRepository.bids, auctionId);
      }
      r := Success(history);
    }
  }
}
