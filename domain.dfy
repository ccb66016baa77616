/**
 * The shared auction domain: the five auction statuses, the auction and bid
 * records, and the read-time derivation of an auction's effective status.
 *
 * Timestamps are `LocalDateTime` values in the system; here they are integer
 * counts of nanoseconds (the resolution of `LocalDateTime`), so `isBefore`
 * is `<`, `isAfter` is `>`, and `plusDays(7)` / `minusHours(1)` are the
 * exact offsets `Week` and `Hour`.
 */
module Domain {
  import opened Wrappers

  type AuctionId = nat   // Long assigned by the database (positive), equal to the id of the item the auction sells
  type UserId = int      // UUID of a user; only equality is used
  type Time = int        // nanoseconds on the local time line

  const NanosPerSecond: int := 1_000_000_000
  const Hour: int := 3600 * NanosPerSecond
  const Week: int := 7 * 24 * Hour

  datatype AuctionStatus = BeforeStart | OnGoing | BidCompleted | EndWithoutBid | Cancelled {
    /** The statuses that no time-driven rule leaves again. */
    predicate IsTerminal() {
      this == BidCompleted || this == Cancelled || this == EndWithoutBid
    }
  }

  /** One row of the auction table; `sellerId` is the seller of the auctioned item. */
  datatype Auction = Auction(
    sellerId: UserId,
    startPrice: int,
    buyNowPrice: Option<int>,
    startAt: Time,
    endAt: Time,
    status: AuctionStatus)

  /** One row of the append-only bid table. */
  datatype Bid = Bid(auctionId: AuctionId, bidderId: UserId, bidPrice: int)

  /**
   * The ordering the bid table keeps: among the bids of one auction, each
   * later bid is strictly higher than every earlier one.
   */
  ghost predicate IncreasingPerAuction(bids: seq<Bid>) {
    forall i, j :: 0 <= i < j < |bids| && bids[i].auctionId == bids[j].auctionId ==>
      bids[i].bidPrice < bids[j].bidPrice
  }

  /**
   * The status a reader sees at time `now`: a terminal stored status is
   * kept whatever the time, otherwise the status follows from the clock
   * with both auction bounds inclusive.
   */
  function EffectiveStatus(a: Auction, now: Time): (s: AuctionStatus)
    ensures a.status.IsTerminal() ==> s == a.status
    ensures !a.status.IsTerminal() ==> (s == BeforeStart <==> now < a.startAt)
    ensures !a.status.IsTerminal() ==> (s == OnGoing <==> a.startAt <= now <= a.endAt)
    ensures !a.status.IsTerminal() ==> (s == EndWithoutBid <==> a.startAt <= now && a.endAt < now)
    ensures (s == BidCompleted || s == Cancelled) ==> s == a.status
  {
    if a.status.IsTerminal() then a.status
    else if now < a.startAt then BeforeStart
    else if now > a.endAt then EndWithoutBid
    else OnGoing
  }

  /** Which of the two non-terminal statuses is stored makes no difference to what a reader sees. */
  lemma EffectiveStatusIgnoresStoredProgress(a: Auction, now: Time)
    requires !a.status.IsTerminal()
    ensures EffectiveStatus(a.(status := BeforeStart), now) == EffectiveStatus(a.(status := OnGoing), now)
    ensures EffectiveStatus(a, now) == EffectiveStatus(a.(status := OnGoing), now)
  {
  }

  /** When the start lies after the end, a reader before the start sees BEFORE_START, never an ended auction. */
  lemma EffectiveStatusStartWinsOverEnd(a: Auction, now: Time)
    requires !a.status.IsTerminal() && a.endAt < a.startAt
    ensures now < a.startAt ==> EffectiveStatus(a, now) == BeforeStart
    ensures EffectiveStatus(a, now) != OnGoing
  {
  }
}
