/**
 * The bid table and the queries the services run against it. The table is
 * append-only; every query is a filter, an existence test or a distinct
 * projection over it.
 */
module BidRepository {
  import opened Domain

  /** The durable bid table, in insertion order. */
  class BidLedger {
    var bids: seq<Bid>

    constructor ()
      ensures bids == []
    {
      bids := [];
    }

    /** `save` of a new bid: the row is appended. */
    method Save(bid: Bid)
      modifies this
      ensures bids == old(bids) + [bid]
    {
      bids := bids + [bid];
    }
  }

  /** `findByAuctionId`: the bids of one auction, in table order (paging left out). */
  function FindByAuctionId(bids: seq<Bid>, auctionId: AuctionId): (r: seq<Bid>)
    ensures |r| <= |bids|
    ensures forall b :: b in r <==> b in bids && b.auctionId == auctionId
  {
    if bids == [] then []
    else
      var rest := FindByAuctionId(bids[1..], auctionId);
      if bids[0].auctionId == auctionId then [bids[0]] + rest else rest
  }

  /** `findAllByBidderId`: the bids placed by one user, in table order. */
  function FindAllByBidderId(bids: seq<Bid>, bidderId: UserId): (r: seq<Bid>)
    ensures |r| <= |bids|
    ensures forall b :: b in r <==> b in bids && b.bidderId == bidderId
  {
    if bids == [] then []
    else
      var rest := FindAllByBidderId(bids[1..], bidderId);
      if bids[0].bidderId == bidderId then [bids[0]] + rest else rest
  }

  /**
   * Appending a bid to the table extends an auction's history by exactly that
   * bid when it belongs to the auction, and leaves it alone otherwise; with
   * the empty table this fixes the history as the table's own order.
   */
  lemma {:induction false} FindByAuctionIdAppend(bids: seq<Bid>, b: Bid, auctionId: AuctionId)
    ensures FindByAuctionId(bids + [b], auctionId)
         == FindByAuctionId(bids, auctionId) + (if b.auctionId == auctionId then [b] else [])
  {
    if bids != [] {
      assert (bids + [b])[1..] == bids[1..] + [b];
      FindByAuctionIdAppend(bids[1..], b, auctionId);
    }
  }

  /** The same for a bidder's history. */
  lemma {:induction false} FindAllByBidderIdAppend(bids: seq<Bid>, b: Bid, bidderId: UserId)
    ensures FindAllByBidderId(bids + [b], bidderId)
         == FindAllByBidderId(bids, bidderId) + (if b.bidderId == bidderId then [b] else [])
  {
    if bids != [] {
      assert (bids + [b])[1..] == bids[1..] + [b];
      FindAllByBidderIdAppend(bids[1..], b, bidderId);
    }
  }

  /** `existsByAuctionId`: whether some bid references the auction. */
  function ExistsByAuctionId(bids: seq<Bid>, auctionId: AuctionId): (b: bool)
    ensures b <==> exists i :: 0 <= i < |bids| && bids[i].auctionId == auctionId
  {
    bids != [] && (bids[0].auctionId == auctionId || ExistsByAuctionId(bids[1..], auctionId))
  }

  /**
   * `findAuctionIdsWithBidsIn`: the distinct auction ids among the bids whose
   * auction id is in `auctionIds` (the SQL `IN` list, whose order and
   * repetitions do not matter).
   */
  function FindAuctionIdsWithBidsIn(bids: seq<Bid>, auctionIds: set<AuctionId>): (r: seq<AuctionId>)
    ensures forall i, j :: 0 <= i < j < |r| ==> r[i] != r[j]
    ensures forall id :: id in r ==> id in auctionIds && ExistsByAuctionId(bids, id)
    ensures forall id :: id in auctionIds && ExistsByAuctionId(bids, id) ==> id in r
  {
    if bids == [] then []
    else
      var rest := FindAuctionIdsWithBidsIn(bids[1..], auctionIds);
      var id := bids[0].auctionId;
      if id in auctionIds && id !in rest then [id] + rest else rest
  }

  /** An auction has a bid exactly when its history is not empty. */
  lemma ExistsIffHistoryNonEmpty(bids: seq<Bid>, auctionId: AuctionId)
    ensures ExistsByAuctionId(bids, auctionId) <==> FindByAuctionId(bids, auctionId) != []
  {
    if ExistsByAuctionId(bids, auctionId) {
      var i :| 0 <= i < |bids| && bids[i].auctionId == auctionId;
      assert bids[i] in FindByAuctionId(bids, auctionId);
    }
  }

  lemma TailKeepsIncreasing(bids: seq<Bid>)
    requires bids != [] && IncreasingPerAuction(bids)
    ensures IncreasingPerAuction(bids[1..])
  {
    var tail := bids[1..];
    forall i, j | 0 <= i < j < |tail| && tail[i].auctionId == tail[j].auctionId
      ensures tail[i].bidPrice < tail[j].bidPrice
    {
      assert tail[i] == bids[i + 1] && tail[j] == bids[j + 1];
    }
  }

  lemma HeadBelowLaterBids(bids: seq<Bid>, b: Bid)
    requires bids != [] && IncreasingPerAuction(bids)
    requires b in bids[1..] && b.auctionId == bids[0].auctionId
    ensures bids[0].bidPrice < b.bidPrice
  {
    var m :| 0 <= m < |bids| - 1 && bids[1..][m] == b;
    assert bids[m + 1] == b;
  }

  /** Prices strictly increase along `h`. */
  ghost predicate PricesIncrease(h: seq<Bid>) {
    forall i, j :: 0 <= i < j < |h| ==> h[i].bidPrice < h[j].bidPrice
  }

  /** On a table that keeps its per-auction ordering, an auction's history is strictly increasing in price. */
  lemma {:induction false} HistoryIsIncreasing(bids: seq<Bid>, auctionId: AuctionId)
    requires IncreasingPerAuction(bids)
    ensures PricesIncrease(FindByAuctionId(bids, auctionId))
  {
    if bids != [] {
      TailKeepsIncreasing(bids);
      HistoryIsIncreasing(bids[1..], auctionId);
      var rest := FindByAuctionId(bids[1..], auctionId);
      if bids[0].auctionId == auctionId {
        var h := [bids[0]] + rest;
        assert FindByAuctionId(bids, auctionId) == h;
        forall i, j | 0 <= i < j < |h| ensures h[i].bidPrice < h[j].bidPrice {
          assert h[j] == rest[j - 1];
          if i == 0 {
            HeadBelowLaterBids(bids, rest[j - 1]);
          } else {
            assert h[i] == rest[i - 1];
          }
        }
      }
    }
  }
}
