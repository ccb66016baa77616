/**
 * Item listing, editing and withdrawal, as far as they touch auctions:
 * the start-time window and initial status of a new auction, the ordering
 * of its images, and the guards that decide when a seller may still edit or
 * withdraw an item.
 */
module Items {
  import opened Wrappers
  import opened Domain
  import opened BidRepository
  import opened AuctionRepository

  type ItemId = AuctionId   // an auction shares its item's id
  type CategoryId = int
  type Condition = nat      // code of the item's condition (the enum itself is not part of this model)

  datatype Item = Item(
    sellerId: UserId,
    categoryId: CategoryId,
    title: string,
    content: string,
    condition: Condition,
    isDeleted: bool)

  datatype ItemImage = ItemImage(itemId: ItemId, imageUrl: string, sortOrder: nat, isThumbnail: bool)

  datatype ItemCreateRequest = ItemCreateRequest(
    categoryId: CategoryId,
    title: string,
    content: string,
    condition: Condition,
    startPrice: int,
    buyNowPrice: Option<int>,
    startAt: Option<Time>,
    endAt: Time,
    imageUrls: seq<string>)

  datatype ItemUpdateRequest = ItemUpdateRequest(
    title: Option<string>,
    content: Option<string>,
    condition: Option<Condition>,
    categoryId: Option<CategoryId>,
    imageUrls: Option<seq<string>>)

  datatype CancelReason = ItemDamaged | PriceMistake | SimpleChangeOfMind

  datatype ItemCreateResponse = ItemCreateResponse(
    id: ItemId, title: string, sellerId: UserId, auctionStatus: AuctionStatus, endAt: Time)

  /** The distinct exceptions of the item operations. */
  datatype ItemError =
    | SellerNotFound     // no user with the seller's id
    | CategoryNotFound   // no category with the requested id
    | StartInPast        // the start lies before now
    | StartTooLate       // the start lies more than a week after now
    | ItemNotFound       // no item with that id
    | NotSeller          // the caller is not the item's seller
    | AlreadyBid         // the item's auction has a bid
    | AuctionEnded       // the item's auction ended before now
    | TooLateToDelete    // less than an hour (or nothing) is left before the auction's end

  /** The start time and initial status chosen for a new auction. */
  datatype StartPlan = StartPlan(startAt: Time, status: AuctionStatus)

  /**
   * The start-time rules of item creation: a missing start means now; the
   * start may be neither before now nor more than a week after it (both
   * bounds allowed); the auction is running at once only when it starts now.
   */
  function ResolveStart(requested: Option<Time>, now: Time): (r: Result<StartPlan, ItemError>)
    ensures r == Failure(StartInPast) <==> requested.GetOr(now) < now
    ensures r == Failure(StartTooLate) <==> now <= requested.GetOr(now) && now + Week < requested.GetOr(now)
    ensures r.Success? <==> now <= requested.GetOr(now) <= now + Week
    ensures r.Success? ==> r.value.startAt == requested.GetOr(now)
    ensures r.Success? ==> (r.value.status == BeforeStart <==> now < r.value.startAt)
    ensures r.Success? ==> (r.value.status == OnGoing <==> r.value.startAt == now)
  {
    var actualStartAt := requested.GetOr(now);
    if actualStartAt < now then Failure(StartInPast)
    else
      var maxStartTime := now + Week;
      if actualStartAt > maxStartTime then Failure(StartTooLate)
      else
        var initialStatus := if actualStartAt > now then BeforeStart else OnGoing;
        Success(StartPlan(actualStartAt, initialStatus))
  }

  /**
   * The stored status of a new auction is what a reader sees at creation
   * time, provided its end has not already passed (creation does not compare
   * the end with the start or with now).
   */
  lemma InitialStatusIsEffective(requested: Option<Time>, now: Time, sellerId: UserId, startPrice: int,
                                 buyNowPrice: Option<int>, endAt: Time)
    requires ResolveStart(requested, now).Success? && now <= endAt
    ensures var plan := ResolveStart(requested, now).value;
      EffectiveStatus(Auction(sellerId, startPrice, buyNowPrice, plan.startAt, endAt, plan.status), now) == plan.status
  {
  }

  /**
   * The image rows of a new item: image `i` of the request gets sort order
   * `i`, and exactly the first image is the thumbnail.
   */
  method IndexImages(itemId: ItemId, imageUrls: seq<string>) returns (images: seq<ItemImage>)
    ensures |images| == |imageUrls|
    ensures forall i :: 0 <= i < |images| ==>
      images[i].itemId == itemId && images[i].imageUrl == imageUrls[i] && images[i].sortOrder == i
    ensures forall i :: 0 <= i < |images| ==> (images[i].isThumbnail <==> i == 0)
  {
    images := [];
    for index := 0 to |imageUrls|
      invariant |images| == index
      invariant forall i :: 0 <= i < index ==>
        images[i] == ItemImage(itemId, imageUrls[i], i, i == 0)
    {
      images := images + [ItemImage(itemId, imageUrls[index], index, index == 0)];
    }
  }

  /** The fields an edit replaces: each one given in the request, the others kept. */
  function ApplyUpdate(item: Item, request: ItemUpdateRequest): (r: Item)
    ensures r.sellerId == item.sellerId && r.isDeleted == item.isDeleted
    ensures request.title.Some? ==> r.title == request.title.value
    ensures request.title.None? ==> r.title == item.title
    ensures request.content.Some? ==> r.content == request.content.value
    ensures request.content.None? ==> r.content == item.content
    ensures request.condition.Some? ==> r.condition == request.condition.value
    ensures request.condition.None? ==> r.condition == item.condition
    ensures request.categoryId.Some? ==> r.categoryId == request.categoryId.value
    ensures request.categoryId.None? ==> r.categoryId == item.categoryId
    ensures request == ItemUpdateRequest(None, None, None, None, request.imageUrls) ==> r == item
  {
    item.(title := request.title.GetOr(item.title),
          content := request.content.GetOr(item.content),
          condition := request.condition.GetOr(item.condition),
          categoryId := request.categoryId.GetOr(item.categoryId))
  }

  /** The item table, with the identity the database assigns on insert. */
  class ItemStore {
    var items: map<ItemId, Item>
    var nextId: ItemId

    constructor ()
      ensures items == map[] && nextId == 1
    {
      items := map[];
      nextId := 1;
    }

    /** Insert of a new item under a freshly generated id. */
    method Save(item: Item) returns (id: ItemId)
      modifies this
      ensures id == old(nextId) && nextId == old(nextId) + 1
      ensures items == old(items)[id := item]
    {
      id := nextId;
      items := items[id := item];
      nextId := nextId + 1;
    }

    /** Write-back of a changed item. */
    method Update(id: ItemId, item: Item)
      modifies this
      ensures items == old(items)[id := item] && nextId == old(nextId)
    {
      items := items[id := item];
    }
  }

  /** The image table, in insertion order. */
  class ItemImageStore {
    var images: seq<ItemImage>

    constructor ()
      ensures images == []
    {
      images := [];
    }

    method SaveAll(newImages: seq<ItemImage>)
      modifies this
      ensures images == old(images) + newImages
    {
      images := images + newImages;
    }
  }

  /** `ItemService`: the tables it writes, the bid table it reads, and the users and categories that exist. */
  class ItemService {
    const itemRepository: ItemStore
    const auctionRepository: AuctionStore
    const itemImageRepository: ItemImageStore
    const bidRepository: BidLedger
    const users: set<UserId>
    const categories: set<CategoryId>

    constructor (itemRepository: ItemStore, auctionRepository: AuctionStore, itemImageRepository: ItemImageStore,
                 bidRepository: BidLedger, users: set<UserId>, categories: set<CategoryId>)
      ensures this.itemRepository == itemRepository && this.auctionRepository == auctionRepository
      ensures this.itemImageRepository == itemImageRepository && this.bidRepository == bidRepository
      ensures this.users == users && this.categories == categories
      ensures itemRepository.items == map[] && auctionRepository.rows == map[] ==> Valid()
    {
      this.itemRepository := itemRepository;
      this.auctionRepository := auctionRepository;
      this.itemImageRepository := itemImageRepository;
      this.bidRepository := bidRepository;
      this.users := users;
      this.categories := categories;
    }

    /**
     * Ids come from the item table's identity, every auction belongs to an
     * item, and an auction's seller is its item's seller.
     */
    ghost predicate Valid()
      reads this, itemRepository, auctionRepository
    {
      && (forall id :: id in itemRepository.items ==> id < itemRepository.nextId)
      && (forall id :: id in auctionRepository.rows ==>
            id in itemRepository.items && auctionRepository.rows[id].sellerId == itemRepository.items[id].sellerId)
    }

    /**
     * `createItem`: checks the seller, the category and the start window in
     * that order; on success stores the item, its auction and its images
     * under one new id.
     */
    method CreateItem(sellerId: UserId, request: ItemCreateRequest, now: Time)
      returns (r: Result<ItemCreateResponse, ItemError>)
      requires Valid()
      modifies itemRepository, auctionRepository, itemImageRepository
      ensures Valid()
      ensures r == Failure(SellerNotFound) <==> sellerId !in users
      ensures r == Failure(CategoryNotFound) <==> sellerId in users && request.categoryId !in categories
      ensures sellerId in users && request.categoryId in categories && ResolveStart(request.startAt, now).Failure?
              ==> r == Failure(ResolveStart(request.startAt, now).error)
      ensures r.Success? <==>
              sellerId in users && request.categoryId in categories && ResolveStart(request.startAt, now).Success?
      ensures r.Failure? ==>
              unchanged(itemRepository) && unchanged(auctionRepository) && unchanged(itemImageRepository)
      ensures r.Success? ==>
        var id := old(itemRepository.nextId);
        var plan := ResolveStart(request.startAt, now).value;
        && id !in old(itemRepository.items) && id !in old(auctionRepository.rows)
        && r.value == ItemCreateResponse(id, request.title, sellerId, plan.status, request.endAt)
        && itemRepository.items == old(itemRepository.items)[id :=
             Item(sellerId, request.categoryId, request.title, request.content, request.condition, false)]
        && auctionRepository.rows == old(auctionRepository.rows)[id :=
             Auction(sellerId, request.startPrice, request.buyNowPrice, plan.startAt, request.endAt, plan.status)]
        && |itemImageRepository.images| == |old(itemImageRepository.images)| + |request.imageUrls|
        && itemImageRepository.images[..|old(itemImageRepository.images)|] == old(itemImageRepository.images)
        && (forall i :: 0 <= i < |request.imageUrls| ==>
              itemImageRepository.images[|old(itemImageRepository.images)| + i]
                == ItemImage(id, request.imageUrls[i], i, i == 0))
    {
      if sellerId !in users {
        return Failure(SellerNotFound);
      }
      if request.categoryId !in categories {
        return Failure(CategoryNotFound);
      }
      var plan :- ResolveStart(request.startAt, now);
      var id := itemRepository.Save(
        Item(sellerId, request.categoryId, request.title, request.content, request.condition, false));
      auctionRepository.Save(id,
        Auction(sellerId, request.startPrice, request.buyNowPrice, plan.startAt, request.endAt, plan.status));
      var images := IndexImages(id, request.imageUrls);
      itemImageRepository.SaveAll(images);
      r := Success(ItemCreateResponse(id, request.title, sellerId, plan.status, request.endAt));
    }

    /**
     * `updateItem`: only the seller may edit, and only while the item's
     * auction (if any) has no bid and has not ended; a requested category
     * must exist. A refused edit changes nothing.
     */
    method UpdateItem(itemId: ItemId, sellerId: UserId, request: ItemUpdateRequest, now: Time)
      returns (r: Result<Item, ItemError>)
      modifies itemRepository
      ensures r == Failure(ItemNotFound) <==> itemId !in old(itemRepository.items)
      ensures r == Failure(NotSeller) <==>
        itemId in old(itemRepository.items) && old(itemRepository.items)[itemId].sellerId != sellerId
      ensures r == Failure(AlreadyBid) <==>
        itemId in old(itemRepository.items) && old(itemRepository.items)[itemId].sellerId == sellerId
        && itemId in auctionRepository.rows && ExistsByAuctionId(bidRepository.bids, itemId)
      ensures r == Failure(AuctionEnded) <==>
        itemId in old(itemRepository.items) && old(itemRepository.items)[itemId].sellerId == sellerId
        && itemId in auctionRepository.rows && !ExistsByAuctionId(bidRepository.bids, itemId)
        && auctionRepository.rows[itemId].endAt < now
      ensures r == Failure(CategoryNotFound) <==>
        itemId in old(itemRepository.items) && old(itemRepository.items)[itemId].sellerId == sellerId
        && (itemId in auctionRepository.rows ==>
              !ExistsByAuctionId(bidRepository.bids, itemId) && now <= auctionRepository.rows[itemId].endAt)
        && request.categoryId.Some? && request.categoryId.value !in categories
      ensures r.Success? <==>
        itemId in old(itemRepository.items) && old(itemRepository.items)[itemId].sellerId == sellerId
        && (itemId in auctionRepository.rows ==>
              !ExistsByAuctionId(bidRepository.bids, itemId) && now <= auctionRepository.rows[itemId].endAt)
        && (request.categoryId.Some? ==> request.categoryId.value in categories)
      ensures r.Failure? ==> itemRepository.items == old(itemRepository.items)
      ensures r.Success? ==>
        && r.value == ApplyUpdate(old(itemRepository.items)[itemId], request)
        && itemRepository.items == old(itemRepository.items)[itemId := r.value]
        && r.value.sellerId == sellerId
      ensures itemRepository.nextId == old(itemRepository.nextId)
      ensures old(Valid()) ==> Valid()
    {
      if itemId !in itemRepository.items {
        return Failure(ItemNotFound);
      }
      var item := itemRepository.items[itemId];
      if item.sellerId != sellerId {
        return Failure(NotSeller);
      }
      if itemId in auctionRepository.rows {
        var auction := auctionRepository.rows[itemId];
        if ExistsByAuctionId(bidRepository.bids, itemId) {
          return Failure(AlreadyBid);
        }
        if auction.endAt < now {
          return Failure(AuctionEnded);
        }
      }
      if request.categoryId.Some? && request.categoryId.value !in categories {
        return Failure(CategoryNotFound);
      }
      var updated := ApplyUpdate(item, request);
      itemRepository.Update(itemId, updated);
      r := Success(updated);
    }

    /**
     * `deleteItem`: only the seller may withdraw, and not once the auction
     * (if any) is within an hour of its end. On success the item is marked
     * deleted and its auction is cancelled exactly when it has a bid; the
     * cancel reason makes no difference to the outcome.
     */
    method DeleteItem(itemId: ItemId, sellerId: UserId, reason: CancelReason, now: Time)
      returns (r: Result<(), ItemError>)
      modifies itemRepository, auctionRepository
      ensures r == Failure(ItemNotFound) <==> itemId !in old(itemRepository.items)
      ensures r == Failure(NotSeller) <==>
        itemId in old(itemRepository.items) && old(itemRepository.items)[itemId].sellerId != sellerId
      ensures r == Failure(TooLateToDelete) <==>
        itemId in old(itemRepository.items) && old(itemRepository.items)[itemId].sellerId == sellerId
        && itemId in old(auctionRepository.rows) && now > old(auctionRepository.rows)[itemId].endAt - Hour
      ensures r.Success? <==>
        itemId in old(itemRepository.items) && old(itemRepository.items)[itemId].sellerId == sellerId
        && (itemId in old(auctionRepository.rows) ==> now <= old(auctionRepository.rows)[itemId].endAt - Hour)
      ensures r.Failure? ==>
        itemRepository.items == old(itemRepository.items) && auctionRepository.rows == old(auctionRepository.rows)
      ensures r.Success? ==>
        itemRepository.items == old(itemRepository.items)[itemId := old(itemRepository.items)[itemId].(isDeleted := true)]
      ensures r.Success? ==>
        auctionRepository.rows ==
          if itemId in old(auctionRepository.rows) && ExistsByAuctionId(bidRepository.bids, itemId)
          then old(auctionRepository.rows)[itemId := old(auctionRepository.rows)[itemId].(status := Cancelled)]
          else old(auctionRepository.rows)
      ensures itemRepository.nextId == old(itemRepository.nextId)
      ensures old(Valid()) ==> Valid()
    {
      if itemId !in itemRepository.items {
        return Failure(ItemNotFound);
      }
      var item := itemRepository.items[itemId];
      if item.sellerId != sellerId {
        return Failure(NotSeller);
      }
      if itemId in auctionRepository.rows {
        var auction := auctionRepository.rows[itemId];
        if now > auction.endAt - Hour {
          return Failure(TooLateToDelete);
        }
        var hasBids := ExistsByAuctionId(bidRepository.bids, itemId);
        if hasBids {
          // The penalty for SimpleChangeOfMind and the notice to the bidders are not implemented in the system.
          auctionRepository.Save(itemId, auction.(status := Cancelled));
        }
      }
      itemRepository.Update(itemId, item.(isDeleted := true));
      r := Success(());
    }
  }
}
