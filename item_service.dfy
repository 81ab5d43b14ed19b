/** The JPA-era `ItemServiceImpl`: creating items and comments and updating an
    item change the tables; the item views, the owner's listing and the search
    are read-only. The clock is the parameter `now`. */
module ItemService {
  import opened Common
  import opened Entities
  import opened Seqs
  import opened Paging
  import opened ItemMapper
  import opened ItemRepository
  import opened BookingRepository
  import opened Database

  // ---------------------------------------------------------------------------
  // Last and next booking of an item

  /** A booking that counts for "last": already over, or under way. */
  predicate LastCandidate(b: BookingInItem, now: int)
  {
    b.end < now || (b.start < now && b.end > now)
  }

  predicate NextCandidate(b: BookingInItem, now: int)
  {
    b.start > now
  }

  function LastCandidates(bs: seq<BookingInItem>, now: int): seq<BookingInItem>
  {
    Filter(bs, (b: BookingInItem) => LastCandidate(b, now))
  }

  function NextCandidates(bs: seq<BookingInItem>, now: int): seq<BookingInItem>
  {
    Filter(bs, (b: BookingInItem) => NextCandidate(b, now))
  }

  /** `findLastBookingOfItem`: among the bookings that are over or under way,
      the one that ends latest (the first of them on a tie), or none. */
  function FindLastBookingOfItem(bs: seq<BookingInItem>, now: int): (r: Option<BookingInItem>)
    ensures r.None? <==> forall b :: b in bs ==> !LastCandidate(b, now)
    ensures r.Some? ==> r.value in bs && LastCandidate(r.value, now)
    ensures r.Some? ==> forall b :: b in bs && LastCandidate(b, now) ==> b.end <= r.value.end
    ensures r.Some? ==> exists k :: 0 <= k < |LastCandidates(bs, now)| && LastCandidates(bs, now)[k] == r.value
                                    && forall j :: 0 <= j < k ==> LastCandidates(bs, now)[j].end < r.value.end
  {
    var c := LastCandidates(bs, now);
    if c == [] then
      assert forall b :: b in bs ==> !LastCandidate(b, now);
      None
    else
      var k := FirstMaxIndex(c, (b: BookingInItem) => b.end);
      assert c[k] in c;
      assert forall b :: b in c ==> b.end <= c[k].end;
      Some(c[k])
  }

  /** `findNextBookingOfItem`: among the bookings still to start, the one that
      starts soonest (the first of them on a tie), or none. */
  function FindNextBookingOfItem(bs: seq<BookingInItem>, now: int): (r: Option<BookingInItem>)
    ensures r.None? <==> forall b :: b in bs ==> !NextCandidate(b, now)
    ensures r.Some? ==> r.value in bs && NextCandidate(r.value, now)
    ensures r.Some? ==> forall b :: b in bs && NextCandidate(b, now) ==> r.value.start <= b.start
    ensures r.Some? ==> exists k :: 0 <= k < |NextCandidates(bs, now)| && NextCandidates(bs, now)[k] == r.value
                                    && forall j :: 0 <= j < k ==> r.value.start < NextCandidates(bs, now)[j].start
  {
    var c := NextCandidates(bs, now);
    if c == [] then
      assert forall b :: b in bs ==> !NextCandidate(b, now);
      None
    else
      var k := FirstMinIndex(c, (b: BookingInItem) => b.start);
      assert c[k] in c;
      assert forall b :: b in c ==> c[k].start <= b.start;
      Some(c[k])
  }

  /** For bookings that do not end before they start, the last booking began
      before `now` and the next one begins after it, so they are never the
      same booking. */
  lemma LastBeganBeforeNext(bs: seq<BookingInItem>, now: int)
    requires forall b :: b in bs ==> b.start <= b.end
    ensures FindLastBookingOfItem(bs, now).Some? ==> FindLastBookingOfItem(bs, now).value.start < now
    ensures FindNextBookingOfItem(bs, now).Some? ==> now < FindNextBookingOfItem(bs, now).value.start
    ensures FindLastBookingOfItem(bs, now).Some? && FindNextBookingOfItem(bs, now).Some?
            ==> FindLastBookingOfItem(bs, now).value != FindNextBookingOfItem(bs, now).value
  {
  }

  // ---------------------------------------------------------------------------
  // Item views

  /** `findCommentsOfItem`: the comments on the item, in table order. */
  function CommentsOfItem(comments: seq<Comment>, itemId: int): (r: seq<CommentResponseDto>)
    ensures |r| == |Filter(comments, (c: Comment) => c.itemId == itemId)|
    ensures forall x :: x in r <==> exists c :: c in comments && c.itemId == itemId && x == ToCommentResponseDto(c)
  {
    var mine := Filter(comments, (c: Comment) => c.itemId == itemId);
    var r := MapSeq(mine, ToCommentResponseDto);
    forall x ensures x in r <==> exists c :: c in comments && c.itemId == itemId && x == ToCommentResponseDto(c) {
      if x in r {
        var k :| 0 <= k < |r| && r[k] == x;
        assert mine[k] in mine;
      }
      if exists c :: c in comments && c.itemId == itemId && x == ToCommentResponseDto(c) {
        var c :| c in comments && c.itemId == itemId && x == ToCommentResponseDto(c);
        var k :| 0 <= k < |mine| && mine[k] == c;
        assert r[k] == x;
      }
    }
    r
  }

  /** What the owner sees of one of their items (`itemId` is the id the
      bookings and comments are looked up by): the last and next of the
      item's approved bookings, and its comments. */
  function OwnerView(d: ItemDto, itemId: int, bookings: seq<Booking>, comments: seq<Comment>, now: int)
    : (r: ItemGetResponseDto)
    ensures ItemDto(r.id, r.name, r.description, r.available) == d
    ensures r.comments == CommentsOfItem(comments, itemId)
    ensures r.lastBooking.Some? ==> r.lastBooking.value in FindAllItemBookingsByItemId(bookings, itemId, APPROVED)
    ensures r.nextBooking.Some? ==> r.nextBooking.value in FindAllItemBookingsByItemId(bookings, itemId, APPROVED)
    ensures r.lastBooking == FindLastBookingOfItem(FindAllItemBookingsByItemId(bookings, itemId, APPROVED), now)
    ensures r.nextBooking == FindNextBookingOfItem(FindAllItemBookingsByItemId(bookings, itemId, APPROVED), now)
  {
    var approved := FindAllItemBookingsByItemId(bookings, itemId, APPROVED);
    ToItemWithBookingsDto(d, FindLastBookingOfItem(approved, now), FindNextBookingOfItem(approved, now),
                          CommentsOfItem(comments, itemId))
  }

  /** `getItemResponseDtoById`: the requester and the item must exist; the
      owner sees the last and next booking, anyone else sees neither. */
  function GetItemResponseDtoById(users: map<int, User>, items: seq<Item>, bookings: seq<Booking>,
                                  comments: seq<Comment>, userId: int, itemId: int, now: int)
    : (r: Result<ItemGetResponseDto>)
    ensures r.Ok? <==> userId in users && At(items, itemId).Some?
    ensures userId !in users ==> r == Err(UserNotFound(userId))
    ensures userId in users && At(items, itemId).None? ==> r == Err(ItemNotFound(itemId))
    ensures r.Ok? ==> ItemDto(r.value.id, r.value.name, r.value.description, r.value.available)
                      == ToItemDto(items[itemId - 1])
                      && r.value.comments == CommentsOfItem(comments, itemId)
    ensures r.Ok? && userId != items[itemId - 1].ownerId ==> r.value.lastBooking.None? && r.value.nextBooking.None?
    ensures r.Ok? && userId == items[itemId - 1].ownerId
            ==> r.value == OwnerView(ToItemDto(items[itemId - 1]), itemId, bookings, comments, now)
  {
    if userId !in users then Err(UserNotFound(userId))
    else if !(1 <= itemId <= |items|) then Err(ItemNotFound(itemId))
    else if userId == items[itemId - 1].ownerId then
      Ok(OwnerView(ToItemDto(items[itemId - 1]), itemId, bookings, comments, now))
    else Ok(ToItemWithBookingsDto(ToItemDto(items[itemId - 1]), None, None, CommentsOfItem(comments, itemId)))
  }

  /** Someone other than the owner gets the same view whatever the bookings
      and whatever the time. */
  lemma NonOwnerViewIgnoresBookings(users: map<int, User>, items: seq<Item>, bookings: seq<Booking>,
                                    bookings': seq<Booking>, comments: seq<Comment>, userId: int, itemId: int,
                                    now: int, now': int)
    requires At(items, itemId).Some? ==> userId != At(items, itemId).value.ownerId
    ensures GetItemResponseDtoById(users, items, bookings, comments, userId, itemId, now)
         == GetItemResponseDtoById(users, items, bookings', comments, userId, itemId, now')
  {
  }

  /** The owner's last and next bookings are approved bookings of that very
      item, in the booking table. */
  lemma OwnerSeesOwnApprovedBookings(users: map<int, User>, items: seq<Item>, bookings: seq<Booking>,
                                     comments: seq<Comment>, userId: int, itemId: int, now: int)
    requires GetItemResponseDtoById(users, items, bookings, comments, userId, itemId, now).Ok?
    ensures var v := GetItemResponseDtoById(users, items, bookings, comments, userId, itemId, now).value;
            (v.lastBooking.Some? ==> exists b :: b in bookings && b.item.id == itemId && b.status == APPROVED
                                                 && v.lastBooking.value == ToBookingInItem(b))
            && (v.nextBooking.Some? ==> exists b :: b in bookings && b.item.id == itemId && b.status == APPROVED
                                                    && v.nextBooking.value == ToBookingInItem(b))
  {
    var v := GetItemResponseDtoById(users, items, bookings, comments, userId, itemId, now).value;
    var approved := FindAllItemBookingsByItemId(bookings, itemId, APPROVED);
    if v.lastBooking.Some? {
      assert v.lastBooking.value in approved;
    }
    if v.nextBooking.Some? {
      assert v.nextBooking.value in approved;
    }
  }

  /** `getAllUserItems`: one owner view per item of the requested page of the
      owner's items. */
  method GetAllUserItems(db: Db, userId: int, from: int, size: int, now: int)
    returns (r: Result<seq<ItemGetResponseDto>>)
    ensures r.Ok? <==> userId in db.users && CreatePageRequest(from, size).Ok?
    ensures userId !in db.users ==> r == Err(UserNotFound(userId))
    ensures userId in db.users && CreatePageRequest(from, size).Err? ==> r == Err(CreatePageRequest(from, size).error)
    ensures r.Ok? ==>
              var page := FindItemsByOwnerId(db.items, userId, CreatePageRequest(from, size).value);
              |r.value| == |page|
              && forall i :: 0 <= i < |page| ==> r.value[i] == OwnerView(page[i], page[i].id, db.bookings, db.comments, now)
  {
    if userId !in db.users {
      return Err(UserNotFound(userId));
    }
    var pr := CreatePageRequest(from, size);
    if pr.Err? {
      return Err(pr.error);
    }
    var page := FindItemsByOwnerId(db.items, userId, pr.value);
    var result: seq<ItemGetResponseDto> := [];
    var i := 0;
    while i < |page|
      invariant 0 <= i <= |page|
      invariant |result| == i
      invariant forall j :: 0 <= j < i ==> result[j] == OwnerView(page[j], page[j].id, db.bookings, db.comments, now)
    {
      result := result + [OwnerView(page[i], page[i].id, db.bookings, db.comments, now)];
      i := i + 1;
    }
    r := Ok(result);
  }

  /** Every entry of the owner's listing is what the owner would see opening
      that item on its own. */
  lemma ListingAgreesWithItemView(users: map<int, User>, items: seq<Item>, bookings: seq<Booking>,
                                  comments: seq<Comment>, userId: int, pr: PageRequest, d: ItemDto, now: int)
    requires forall k :: 0 <= k < |items| ==> items[k].id == k + 1
    requires userId in users && d in FindItemsByOwnerId(items, userId, pr)
    ensures GetItemResponseDtoById(users, items, bookings, comments, userId, d.id, now)
         == Ok(OwnerView(d, d.id, bookings, comments, now))
  {
    var it :| it in items && it.ownerId == userId && d == ToItemDto(it);
    var k :| 0 <= k < |items| && items[k] == it;
    assert At(items, d.id) == Some(it);
  }

  // ---------------------------------------------------------------------------
  // Creating items and comments

  /** The guards of `addItem`: the owner exists, and a given request id names
      a stored request. */
  function AddItemCheck(users: map<int, User>, requests: seq<ItemRequest>, userId: int,
                        requestId: Option<int>): (r: Outcome)
    ensures r == Pass <==> userId in users && (requestId.Some? ==> At(requests, requestId.value).Some?)
    ensures userId !in users ==> r == Fail(UserNotFound(userId))
    ensures userId in users && requestId.Some? && At(requests, requestId.value).None?
            ==> r == Fail(ItemRequestNotFound(requestId.value))
  {
    if userId !in users then Fail(UserNotFound(userId))
    else match requestId
      case None => Pass
      case Some(id) => if At(requests, id).None? then Fail(ItemRequestNotFound(id)) else Pass
  }

  /** `addItem`: one item is appended with the next id, owned by the caller,
      and linked to the found request or to none; on failure nothing is saved. */
  method AddItem(db: Db, userId: int, name: string, description: string, available: bool,
                 requestId: Option<int>) returns (r: Result<ItemPostDto>)
    requires db.Valid()
    modifies db`items
    ensures db.Valid()
    ensures r.Ok? <==> AddItemCheck(db.users, db.requests, userId, requestId) == Pass
    ensures r.Err? ==> AddItemCheck(db.users, db.requests, userId, requestId) == Fail(r.error)
                       && db.items == old(db.items)
    ensures r.Ok? ==>
              var saved := Item(|old(db.items)| + 1, name, description, available, userId, requestId);
              db.items == old(db.items) + [saved] && r.value == ToItemPostDto(saved)
  {
    if userId !in db.users {
      return Err(UserNotFound(userId));
    }
    var owner := db.users[userId];
    var request: Option<int> := None;
    if requestId.Some? {
      var found := At(db.requests, requestId.value);
      if found.None? {
        return Err(ItemRequestNotFound(requestId.value));
      }
      request := Some(found.value.id);
    }
    var saved := Item(|db.items| + 1, name, description, available, owner.id, request);
    db.items := db.items + [saved];
    r := Ok(ToItemPostDto(saved));
  }

  /** An item saved for a request is among that request's responses. */
  lemma SavedItemAnswersRequest(items: seq<Item>, saved: Item, requestId: int)
    requires saved.request == Some(requestId)
    ensures ToItemInItemRequestDto(saved, requestId) in GetAllResponsesByRequestId(items + [saved], requestId)
  {
    assert saved in items + [saved];
  }

  /** The guards of `addComment`: the author exists, the item exists, and the
      author has an approved booking of it that has ended. */
  function AddCommentCheck(users: map<int, User>, items: seq<Item>, bookings: seq<Booking>,
                           userId: int, itemId: int, now: int): (r: Outcome)
    ensures r == Pass <==> userId in users && At(items, itemId).Some?
                           && exists b :: b in bookings && CommentEligible(b, itemId, userId, APPROVED, now)
    ensures userId !in users ==> r == Fail(UserNotFound(userId))
    ensures userId in users && At(items, itemId).None? ==> r == Fail(ItemNotFound(itemId))
    ensures userId in users && At(items, itemId).Some?
            && (forall b :: b in bookings ==> !CommentEligible(b, itemId, userId, APPROVED, now))
            ==> r == Fail(UserCannotCommentItem(userId, itemId))
  {
    if userId !in users then Fail(UserNotFound(userId))
    else if At(items, itemId).None? then Fail(ItemNotFound(itemId))
    else
      var eligible := FindEligibleForComment(bookings, itemId, userId, APPROVED, now);
      if eligible == [] then Fail(UserCannotCommentItem(userId, itemId))
      else
        assert eligible[0] in eligible;
        Pass
  }

  /** Only a booker whose approved booking of the item is over may comment. */
  lemma CommenterBookedTheItem(users: map<int, User>, items: seq<Item>, bookings: seq<Booking>,
                               userId: int, itemId: int, now: int)
    requires AddCommentCheck(users, items, bookings, userId, itemId, now) == Pass
    ensures exists b :: b in bookings && b.item.id == itemId && b.status == APPROVED
                        && Matches(b, Booker, userId, Past, now)
  {
    var b :| b in bookings && CommentEligible(b, itemId, userId, APPROVED, now);
    EligibleIsPastOfBooker(b, itemId, userId, APPROVED, now);
  }

  /** `addComment`: one comment is appended with the next id, on the item, by
      the stored author, created `now`; on failure nothing is saved. */
  method AddComment(db: Db, userId: int, itemId: int, text: string, now: int) returns (r: Result<CommentResponseDto>)
    requires db.Valid()
    modifies db`comments
    ensures db.Valid()
    ensures r.Ok? <==> AddCommentCheck(db.users, db.items, db.bookings, userId, itemId, now) == Pass
    ensures r.Err? ==> AddCommentCheck(db.users, db.items, db.bookings, userId, itemId, now) == Fail(r.error)
                       && db.comments == old(db.comments)
    ensures r.Ok? ==>
              var saved := Comment(|old(db.comments)| + 1, text, itemId, db.users[userId], now);
              db.comments == old(db.comments) + [saved] && r.value == ToCommentResponseDto(saved)
  {
    if userId !in db.users {
      return Err(UserNotFound(userId));
    }
    var user := db.users[userId];
    var found := At(db.items, itemId);
    if found.None? {
      return Err(ItemNotFound(itemId));
    }
    if FindEligibleForComment(db.bookings, itemId, userId, APPROVED, now) == [] {
      return Err(UserCannotCommentItem(userId, itemId));
    }
    var saved := Comment(|db.comments| + 1, text, found.value.id, user, now);
    db.comments := db.comments + [saved];
    r := Ok(ToCommentResponseDto(saved));
  }

  // ---------------------------------------------------------------------------
  // Updating an item

  /** `ItemUpdateDto`: each field is either present or absent. */
  datatype ItemUpdate = ItemUpdate(name: Option<string>, description: Option<string>, available: Option<bool>)

  /** The item with the present fields of `u` written over it. */
  function ApplyItemUpdate(it: Item, u: ItemUpdate): (r: Item)
    ensures r.id == it.id && r.ownerId == it.ownerId && r.request == it.request
    ensures u.name.None? ==> r.name == it.name
    ensures u.name.Some? ==> r.name == u.name.value
    ensures u.description.None? ==> r.description == it.description
    ensures u.description.Some? ==> r.description == u.description.value
    ensures u.available.None? ==> r.available == it.available
    ensures u.available.Some? ==> r.available == u.available.value
  {
    var it1 := if u.name.Some? then it.(name := u.name.value) else it;
    var it2 := if u.description.Some? then it1.(description := u.description.value) else it1;
    if u.available.Some? then it2.(available := u.available.value) else it2
  }

  /** An update with no field present leaves the item as it was. */
  lemma EmptyUpdateChangesNothing(it: Item)
    ensures ApplyItemUpdate(it, ItemUpdate(None, None, None)) == it
  {
  }

  /** Applying the same update twice is applying it once. */
  lemma UpdateIsIdempotent(it: Item, u: ItemUpdate)
    ensures ApplyItemUpdate(ApplyItemUpdate(it, u), u) == ApplyItemUpdate(it, u)
  {
  }

  /** The guards of `updateItem`: the caller exists, the item exists, the
      caller owns it. */
  function UpdateItemCheck(users: map<int, User>, items: seq<Item>, userId: int, itemId: int): (r: Outcome)
    ensures r == Pass <==> userId in users && At(items, itemId).Some? && At(items, itemId).value.ownerId == userId
    ensures userId !in users ==> r == Fail(UserNotFound(userId))
    ensures userId in users && At(items, itemId).None? ==> r == Fail(ItemNotFound(itemId))
    ensures userId in users && At(items, itemId).Some? && At(items, itemId).value.ownerId != userId
            ==> r == Fail(AccessDenied)
  {
    if userId !in users then Fail(UserNotFound(userId))
    else match At(items, itemId)
      case None => Fail(ItemNotFound(itemId))
      case Some(item) => if userId != item.ownerId then Fail(AccessDenied) else Pass
  }

  /** `updateItem`: only the owner's item changes, in its present fields only;
      a refused update saves nothing. */
  method UpdateItem(db: Db, userId: int, itemId: int, u: ItemUpdate) returns (r: Result<ItemDto>)
    requires db.Valid()
    modifies db`items
    ensures db.Valid()
    ensures r.Ok? <==> UpdateItemCheck(db.users, old(db.items), userId, itemId) == Pass
    ensures r.Err? ==> UpdateItemCheck(db.users, old(db.items), userId, itemId) == Fail(r.error)
                       && db.items == old(db.items)
    ensures r.Ok? ==> db.items == old(db.items)[itemId - 1 := ApplyItemUpdate(old(db.items)[itemId - 1], u)]
                      && r.value == ToItemDto(db.items[itemId - 1])
  {
    if userId !in db.users {
      return Err(UserNotFound(userId));
    }
    var found := At(db.items, itemId);
    if found.None? {
      return Err(ItemNotFound(itemId));
    }
    var item := found.value;
    if userId != item.ownerId {
      return Err(AccessDenied);
    }
    if u.name.Some? {
      item := item.(name := u.name.value);
    }
    if u.description.Some? {
      item := item.(description := u.description.value);
    }
    if u.available.Some? {
      item := item.(available := u.available.value);
    }
    db.items := db.items[itemId - 1 := item];
    r := Ok(ToItemDto(item));
  }

  // ---------------------------------------------------------------------------
  // Search

  /** `searchItem`: a blank text finds nothing, before the page window is even
      built; otherwise the lowered text is searched in the page window. */
  function SearchItem(items: seq<Item>, text: string, from: int, size: int): (r: Result<seq<ItemDto>>)
    ensures IsBlank(text) ==> r == Ok([])
    ensures !IsBlank(text) ==> (r.Ok? <==> CreatePageRequest(from, size).Ok?)
    ensures !IsBlank(text) && r.Err? ==> r.error == CreatePageRequest(from, size).error
    ensures !IsBlank(text) && r.Ok? ==> r.value == SearchItemsByText(items, text, CreatePageRequest(from, size).value)
  {
    if IsBlank(text) then Ok([])
    else match CreatePageRequest(from, size)
      case Err(e) => Err(e)
      case Ok(pr) =>
        LowerIdempotent(text);
        SearchIgnoresCase(items, Lower(text), text, pr);
        Ok(SearchItemsByText(items, Lower(text), pr))
  }

  /** A blank search succeeds even with a page window that would fail. */
  lemma BlankSearchIgnoresPaging(items: seq<Item>)
    ensures CreatePageRequest(5, 0) == Err(DivisionByZero)
    ensures SearchItem(items, " ", 5, 0) == Ok([])
  {
  }

  /** Everything a search returns is an available item that mentions the text. */
  lemma SearchFindsOnlyMatches(items: seq<Item>, text: string, from: int, size: int)
    requires SearchItem(items, text, from, size).Ok?
    ensures forall d :: d in SearchItem(items, text, from, size).value
              ==> d.available && exists it :: it in items && Searchable(it, text) && d == ToItemDto(it)
  {
  }
}
