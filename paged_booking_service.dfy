/** The server's `BookingServiceImpl`: creating and deciding bookings change
    the booking table; reading one booking and the paged listings are pure
    functions of the tables, the state token, the page window and `now`. */
module PagedBookingService {
  import opened Common
  import opened Entities
  import opened Paging
  import opened BookingMapper
  import opened BookingRepository
  import opened Database
  import SortTypes

  /** The guards of `addBooking`, in their order: the booker exists, the item
      exists, the booker is not its owner, the item is available. */
  function AddBookingCheck(users: map<int, User>, items: seq<Item>, bookerId: int, itemId: int): (r: Outcome)
    ensures r == Pass <==> bookerId in users && At(items, itemId).Some?
                           && At(items, itemId).value.ownerId != bookerId && At(items, itemId).value.available
    ensures bookerId !in users ==> r == Fail(UserNotFound(bookerId))
    ensures bookerId in users && At(items, itemId).None? ==> r == Fail(ItemNotFound(itemId))
    ensures bookerId in users && At(items, itemId).Some? && At(items, itemId).value.ownerId == bookerId
            ==> r == Fail(AccessDenied)
    ensures bookerId in users && At(items, itemId).Some? && At(items, itemId).value.ownerId != bookerId
            && !At(items, itemId).value.available
            ==> r == Fail(ItemIsNotAvailable(At(items, itemId).value.id))
  {
    if bookerId !in users then Fail(UserNotFound(bookerId))
    else match At(items, itemId)
      case None => Fail(ItemNotFound(itemId))
      case Some(item) =>
        if bookerId == item.ownerId then Fail(AccessDenied)
        else if !item.available then Fail(ItemIsNotAvailable(item.id))
        else Pass
  }

  /** The owner of an item can never book it, whatever else holds. */
  lemma OwnItemIsNeverBookable(users: map<int, User>, items: seq<Item>, itemId: int)
    requires At(items, itemId).Some?
    ensures AddBookingCheck(users, items, At(items, itemId).value.ownerId, itemId) != Pass
  {
  }

  /** `addBooking`: on success exactly one booking is appended, with the next
      id, the given start and end, the stored item and booker, and status
      WAITING; on failure nothing is saved. */
  method AddBooking(db: Db, bookerId: int, itemId: int, start: int, end: int) returns (r: Result<BookingResultDto>)
    requires db.Valid()
    modifies db`bookings
    ensures db.Valid()
    ensures r.Ok? <==> AddBookingCheck(db.users, db.items, bookerId, itemId) == Pass
    ensures r.Err? ==> AddBookingCheck(db.users, db.items, bookerId, itemId) == Fail(r.error)
                       && db.bookings == old(db.bookings)
    ensures r.Ok? ==>
              var saved := Booking(|old(db.bookings)| + 1, start, end, db.items[itemId - 1], db.users[bookerId], WAITING);
              db.bookings == old(db.bookings) + [saved] && r.value == ToBookingResultDto(saved)
  {
    if bookerId !in db.users {
      return Err(UserNotFound(bookerId));
    }
    var user := db.users[bookerId];
    var found := At(db.items, itemId);
    if found.None? {
      return Err(ItemNotFound(itemId));
    }
    var item := found.value;
    if bookerId == item.ownerId {
      return Err(AccessDenied);
    }
    if !item.available {
      return Err(ItemIsNotAvailable(item.id));
    }
    var saved := Booking(|db.bookings| + 1, start, end, item, user, WAITING);
    db.bookings := db.bookings + [saved];
    r := Ok(ToBookingResultDto(saved));
  }

  /** The guards of `updateBookingStatus`, in their order. The terminal check on
      APPROVED comes before the ownership check. */
  function DecideCheck(users: map<int, User>, bookings: seq<Booking>, ownerId: int, bookingId: int): (r: Outcome)
    ensures r == Pass <==> ownerId in users && At(bookings, bookingId).Some?
                           && At(bookings, bookingId).value.status != APPROVED
                           && At(bookings, bookingId).value.item.ownerId == ownerId
    ensures ownerId !in users ==> r == Fail(UserNotFound(ownerId))
    ensures ownerId in users && At(bookings, bookingId).None? ==> r == Fail(BookingNotFound(bookingId))
    ensures ownerId in users && At(bookings, bookingId).Some? && At(bookings, bookingId).value.status == APPROVED
            ==> r == Fail(BookingCannotBeChanged(bookingId))
    ensures ownerId in users && At(bookings, bookingId).Some? && At(bookings, bookingId).value.status != APPROVED
            && At(bookings, bookingId).value.item.ownerId != ownerId
            ==> r == Fail(AccessDenied)
  {
    if ownerId !in users then Fail(UserNotFound(ownerId))
    else match At(bookings, bookingId)
      case None => Fail(BookingNotFound(bookingId))
      case Some(b) =>
        if b.status == APPROVED then Fail(BookingCannotBeChanged(bookingId))
        else if ownerId != b.item.ownerId then Fail(AccessDenied)
        else Pass
  }

  /** `approved = true` sets APPROVED, `false` sets REJECTED; nothing else of
      the booking changes. */
  function Decided(b: Booking, approved: bool): (r: Booking)
    ensures r.status == (if approved then APPROVED else REJECTED)
    ensures r.(status := b.status) == b
  {
    b.(status := if approved then APPROVED else REJECTED)
  }

  /** The booking table after one `updateBookingStatus` call. */
  function DecideTransition(users: map<int, User>, bookings: seq<Booking>, ownerId: int, bookingId: int,
                            approved: bool): (r: seq<Booking>)
    ensures |r| == |bookings|
    ensures forall j :: 0 <= j < |r| && j != bookingId - 1 ==> r[j] == bookings[j]
    ensures DecideCheck(users, bookings, ownerId, bookingId) != Pass ==> r == bookings
    ensures DecideCheck(users, bookings, ownerId, bookingId) == Pass
            ==> r[bookingId - 1] == Decided(bookings[bookingId - 1], approved)
  {
    if DecideCheck(users, bookings, ownerId, bookingId) == Pass
    then bookings[bookingId - 1 := Decided(bookings[bookingId - 1], approved)]
    else bookings
  }

  /** `updateBookingStatus`: the loaded booking's status is set in place and
      saved; any failed guard leaves the table as it was. */
  method UpdateBookingStatus(db: Db, ownerId: int, bookingId: int, approved: bool) returns (r: Result<BookingResultDto>)
    requires db.Valid()
    modifies db`bookings
    ensures db.Valid()
    ensures db.bookings == DecideTransition(db.users, old(db.bookings), ownerId, bookingId, approved)
    ensures r.Ok? <==> DecideCheck(db.users, old(db.bookings), ownerId, bookingId) == Pass
    ensures r.Err? ==> DecideCheck(db.users, old(db.bookings), ownerId, bookingId) == Fail(r.error)
    ensures r.Ok? ==> r.value == ToBookingResultDto(db.bookings[bookingId - 1])
  {
    if ownerId !in db.users {
      return Err(UserNotFound(ownerId));
    }
    var found := At(db.bookings, bookingId);
    if found.None? {
      return Err(BookingNotFound(bookingId));
    }
    var booking := found.value;
    if booking.status == APPROVED {
      return Err(BookingCannotBeChanged(bookingId));
    }
    if ownerId != booking.item.ownerId {
      return Err(AccessDenied);
    }
    if approved {
      booking := booking.(status := APPROVED);
    } else {
      booking := booking.(status := REJECTED);
    }
    db.bookings := db.bookings[bookingId - 1 := booking];
    r := Ok(ToBookingResultDto(booking));
  }

  /** One call of `updateBookingStatus`. */
  datatype Decision = Decision(ownerId: int, bookingId: int, approved: bool)

  function ApplyDecisions(users: map<int, User>, bookings: seq<Booking>, ds: seq<Decision>): (r: seq<Booking>)
    ensures |r| == |bookings|
    decreases |ds|
  {
    if ds == [] then bookings
    else ApplyDecisions(users, DecideTransition(users, bookings, ds[0].ownerId, ds[0].bookingId, ds[0].approved), ds[1..])
  }

  /** APPROVED is terminal: whoever asks and whatever is asked, an approved
      booking stays approved through any sequence of decisions. */
  lemma {:induction false} ApprovedStaysApproved(users: map<int, User>, bookings: seq<Booking>, ds: seq<Decision>, k: int)
    requires 0 <= k < |bookings| && bookings[k].status == APPROVED
    ensures ApplyDecisions(users, bookings, ds)[k].status == APPROVED
    decreases |ds|
  {
    if ds != [] {
      var next := DecideTransition(users, bookings, ds[0].ownerId, ds[0].bookingId, ds[0].approved);
      if ds[0].bookingId == k + 1 {
        assert DecideCheck(users, bookings, ds[0].ownerId, ds[0].bookingId) != Pass;
      }
      assert next[k].status == APPROVED;
      ApprovedStaysApproved(users, next, ds[1..], k);
    }
  }

  /** Only the item's owner changes a booking: decisions by anyone else leave
      its status where it was. */
  lemma {:induction false} OnlyOwnerDecides(users: map<int, User>, bookings: seq<Booking>, ds: seq<Decision>, k: int)
    requires 0 <= k < |bookings|
    requires forall i :: 0 <= i < |ds| ==> ds[i].ownerId != bookings[k].item.ownerId
    ensures ApplyDecisions(users, bookings, ds)[k] == bookings[k]
    decreases |ds|
  {
    if ds != [] {
      var next := DecideTransition(users, bookings, ds[0].ownerId, ds[0].bookingId, ds[0].approved);
      assert next[k] == bookings[k];
      assert forall i :: 0 <= i < |ds[1..]| ==> ds[1..][i] == ds[i + 1];
      OnlyOwnerDecides(users, next, ds[1..], k);
    }
  }

  /** A REJECTED booking passes the terminal check, so its owner can decide
      it again and approve it. */
  lemma RejectedCanBeRedecided(users: map<int, User>, bookings: seq<Booking>, bookingId: int)
    requires 1 <= bookingId <= |bookings| && bookings[bookingId - 1].status == REJECTED
    requires bookings[bookingId - 1].item.ownerId in users
    ensures var owner := bookings[bookingId - 1].item.ownerId;
            DecideCheck(users, bookings, owner, bookingId) == Pass
            && DecideTransition(users, bookings, owner, bookingId, true)[bookingId - 1].status == APPROVED
  {
  }

  /** `getBooking`: the requester must exist, the booking must exist, and the
      requester must be its booker or its item's owner. */
  function GetBooking(users: map<int, User>, bookings: seq<Booking>, userId: int, bookingId: int): (r: Result<BookingResultDto>)
    ensures r.Ok? <==> userId in users && At(bookings, bookingId).Some?
                       && (userId == At(bookings, bookingId).value.booker.id
                           || userId == At(bookings, bookingId).value.item.ownerId)
    ensures r.Ok? ==> r.value == ToBookingResultDto(bookings[bookingId - 1])
    ensures userId !in users ==> r == Err(UserNotFound(userId))
    ensures userId in users && At(bookings, bookingId).None? ==> r == Err(BookingNotFound(bookingId))
    ensures r.Err? && userId in users && At(bookings, bookingId).Some? ==> r == Err(AccessDenied)
  {
    if userId !in users then Err(UserNotFound(userId))
    else match At(bookings, bookingId)
      case None => Err(BookingNotFound(bookingId))
      case Some(b) =>
        if userId != b.booker.id && userId != b.item.ownerId then Err(AccessDenied)
        else Ok(ToBookingResultDto(b))
  }

  /** What `getAllUserBookings` (party Booker) and
      `getAllUserBookedItemsBookings` (party Owner) do: check the user, build
      the page request, then dispatch on `valueOf` of the state token. An
      unknown token makes `valueOf` throw before the `switch` is entered, so
      its `InvalidSortTypeException` default is never reached. */
  function ListBookings(users: map<int, User>, bookings: seq<Booking>, party: Party, userId: int,
                        sort: string, from: int, size: int, now: int): (r: Result<seq<BookingResultDto>>)
    ensures r.Ok? <==> userId in users && CreatePageRequest(from, size).Ok? && SortTypes.ParseState(sort).Ok?
    ensures userId !in users ==> r == Err(UserNotFound(userId))
    ensures userId in users && CreatePageRequest(from, size).Err? ==> r == Err(CreatePageRequest(from, size).error)
    ensures userId in users && CreatePageRequest(from, size).Ok? && SortTypes.ParseState(sort).Err?
            ==> r == Err(NoEnumConstant(sort))
    ensures r.Ok? ==> |r.value| <= size
    ensures r.Ok? ==> r.value == ToBookingResultDtoList(Page(FindOrdered(bookings, party, userId,
                                   BucketOf(SortTypes.ParseState(sort).value), now), CreatePageRequest(from, size).value))
    ensures r.Ok? ==> forall i, j :: 0 <= i < j < |r.value| ==> r.value[i].start >= r.value[j].start
    ensures r.Ok? ==> forall i :: 0 <= i < |r.value| ==>
              exists b :: b in bookings && Matches(b, party, userId, BucketOf(SortTypes.ParseState(sort).value), now)
                          && r.value[i] == ToBookingResultDto(b)
  {
    if userId !in users then Err(UserNotFound(userId))
    else match CreatePageRequest(from, size)
      case Err(e) => Err(e)
      case Ok(pr) =>
        match SortTypes.ParseState(sort)
        case Err(e) => Err(e)
        case Ok(t) =>
          PageDtosAreSelected(bookings, party, userId, BucketOf(t), now, pr);
          PageDtosAreOrdered(bookings, party, userId, BucketOf(t), now, pr);
          FindPageIsWindow(bookings, party, userId, BucketOf(t), now, pr);
          Ok(ToBookingResultDtoList(FindPage(bookings, party, userId, BucketOf(t), now, pr)))
  }

  /** The DTOs of a page keep its start-descending order. */
  lemma PageDtosAreOrdered(bookings: seq<Booking>, party: Party, userId: int, bucket: Bucket, now: int,
                           pr: PageRequest)
    ensures var r := ToBookingResultDtoList(FindPage(bookings, party, userId, bucket, now, pr));
            forall i, j :: 0 <= i < j < |r| ==> r[i].start >= r[j].start
  {
    var page := FindPage(bookings, party, userId, bucket, now, pr);
    var r := ToBookingResultDtoList(page);
    forall i, j | 0 <= i < j < |r| ensures r[i].start >= r[j].start {
      assert r[i].start == StartOf(page[i]) && r[j].start == StartOf(page[j]);
    }
  }

  /** Every DTO of a page is the DTO of a booking the query selects. */
  lemma PageDtosAreSelected(bookings: seq<Booking>, party: Party, userId: int, bucket: Bucket, now: int,
                            pr: PageRequest)
    ensures var r := ToBookingResultDtoList(FindPage(bookings, party, userId, bucket, now, pr));
            forall i :: 0 <= i < |r| ==>
              exists b :: b in bookings && Matches(b, party, userId, bucket, now) && r[i] == ToBookingResultDto(b)
  {
    var page := FindPage(bookings, party, userId, bucket, now, pr);
    var r := ToBookingResultDtoList(page);
    forall i | 0 <= i < |r|
      ensures exists b :: b in bookings && Matches(b, party, userId, bucket, now) && r[i] == ToBookingResultDto(b)
    {
      assert page[i] in page && r[i] == ToBookingResultDto(page[i]);
    }
  }
}
