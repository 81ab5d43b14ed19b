/** The older `BookingServiceImpl` under `src/`: the same lifecycle as the
    server version, plus the time-range checks on creation, without the
    user check on reading, with the state token validated up front and with
    unpaged listings. Deciding a booking is the same code in both versions and
    is `PagedBookingService.UpdateBookingStatus`. */
module LegacyBookingService {
  import opened Common
  import opened Entities
  import opened Paging
  import opened BookingMapper
  import opened BookingRepository
  import opened Database
  import opened Seqs
  import SortTypes
  import PagedBookingService
  import GatewayBooking

  /** The guards of the older `addBooking`: those of the server version, then
      start equal to end, then start after end. */
  function AddBookingCheck(users: map<int, User>, items: seq<Item>, bookerId: int, itemId: int,
                           start: int, end: int): (r: Outcome)
    ensures r == Pass <==> PagedBookingService.AddBookingCheck(users, items, bookerId, itemId) == Pass && start < end
    ensures PagedBookingService.AddBookingCheck(users, items, bookerId, itemId).Fail?
            ==> r == PagedBookingService.AddBookingCheck(users, items, bookerId, itemId)
    ensures PagedBookingService.AddBookingCheck(users, items, bookerId, itemId) == Pass && start >= end
            ==> r == Fail(WrongBookingTime)
  {
    match PagedBookingService.AddBookingCheck(users, items, bookerId, itemId)
    case Fail(e) => Fail(e)
    case Pass =>
      if start == end then Fail(WrongBookingTime)
      else if start > end then Fail(WrongBookingTime)
      else Pass
  }

  /** The gateway's pre-check and the older service's time checks accept the
      same ranges, so behind the gateway the time checks never fire. */
  lemma GatewayPrecheckSubsumesTimeChecks(users: map<int, User>, items: seq<Item>, bookerId: int, itemId: int,
                                          start: int, end: int)
    requires GatewayBooking.AddBookingCheck(start, end) == Pass
    ensures AddBookingCheck(users, items, bookerId, itemId, start, end)
         == PagedBookingService.AddBookingCheck(users, items, bookerId, itemId)
  {
  }

  /** The older `addBooking`: as the server version, with the time checks
      last; a refused range saves nothing. */
  method AddBooking(db: Db, bookerId: int, itemId: int, start: int, end: int) returns (r: Result<BookingResultDto>)
    requires db.Valid()
    modifies db`bookings
    ensures db.Valid()
    ensures r.Ok? <==> AddBookingCheck(db.users, db.items, bookerId, itemId, start, end) == Pass
    ensures r.Err? ==> AddBookingCheck(db.users, db.items, bookerId, itemId, start, end) == Fail(r.error)
                       && db.bookings == old(db.bookings)
    ensures r.Ok? ==>
              var saved := Booking(|old(db.bookings)| + 1, start, end, db.items[itemId - 1], db.users[bookerId], WAITING);
              db.bookings == old(db.bookings) + [saved] && r.value == ToBookingResultDto(saved)
  {
    if bookerId !in db.users {
      return Err(UserNotFound(bookerId));
    }
    var user := db.users[bookerId];
    var found := At(db.items, itemId);
    if found.None? {
      return Err(ItemNotFound(itemId));
    }
    var item := found.value;
    if bookerId == item.ownerId {
      return Err(AccessDenied);
    }
    if !item.available {
      return Err(ItemIsNotAvailable(item.id));
    }
    if start == end {
      return Err(WrongBookingTime);
    }
    if start > end {
      return Err(WrongBookingTime);
    }
    var saved := Booking(|db.bookings| + 1, start, end, item, user, WAITING);
    db.bookings := db.bookings + [saved];
    r := Ok(ToBookingResultDto(saved));
  }

  /** The older `getBooking`: no check that the requester exists. */
  function GetBooking(bookings: seq<Booking>, userId: int, bookingId: int): (r: Result<BookingResultDto>)
    ensures r.Ok? <==> At(bookings, bookingId).Some?
                       && (userId == At(bookings, bookingId).value.booker.id
                           || userId == At(bookings, bookingId).value.item.ownerId)
    ensures r.Ok? ==> r.value == ToBookingResultDto(bookings[bookingId - 1])
    ensures At(bookings, bookingId).None? ==> r == Err(BookingNotFound(bookingId))
    ensures r.Err? && At(bookings, bookingId).Some? ==> r == Err(AccessDenied)
  {
    match At(bookings, bookingId)
    case None => Err(BookingNotFound(bookingId))
    case Some(b) =>
      if userId != b.booker.id && userId != b.item.ownerId then Err(AccessDenied)
      else Ok(ToBookingResultDto(b))
  }

  /** For a requester who exists the two versions of `getBooking` agree; for
      one who does not, only the server version refuses. */
  lemma GetBookingVersionsAgree(users: map<int, User>, bookings: seq<Booking>, userId: int, bookingId: int)
    ensures userId in users ==>
              GetBooking(bookings, userId, bookingId) == PagedBookingService.GetBooking(users, bookings, userId, bookingId)
    ensures userId !in users ==>
              PagedBookingService.GetBooking(users, bookings, userId, bookingId) == Err(UserNotFound(userId))
  {
  }

  /** `sortValidNameCheck`: `valueOf` must accept the token, otherwise
      `InvalidSortType("Unknown state: " + sort)`. */
  function SortValidNameCheck(sort: string): (r: Outcome)
    ensures r == Pass <==> exists t: SortTypes.SortType :: SortTypes.Name(t) == sort
    ensures r.Fail? ==> r.error == InvalidSortType("Unknown state: " + sort)
  {
    match SortTypes.ValueOf(sort)
    case Some(_) => Pass
    case None => Fail(InvalidSortType("Unknown state: " + sort))
  }

  /** `r` lists the DTOs of exactly the bookings the query selects, each
      once and latest start first. */
  ghost predicate OrderedListing(r: seq<BookingResultDto>, bookings: seq<Booking>, party: Party, userId: int,
                                 bucket: Bucket, now: int)
  {
    |r| == |Select(bookings, party, userId, bucket, now)|
    && (forall i, j :: 0 <= i < j < |r| ==> r[i].start >= r[j].start)
    && (forall b :: b in bookings && Matches(b, party, userId, bucket, now) ==> ToBookingResultDto(b) in r)
    && (forall i :: 0 <= i < |r| ==>
          exists b :: b in bookings && Matches(b, party, userId, bucket, now) && r[i] == ToBookingResultDto(b))
  }

  /** The older listings: check the user, check the token, then the whole
      result of the dispatched query in start-descending order. */
  function ListBookings(users: map<int, User>, bookings: seq<Booking>, party: Party, userId: int,
                        sort: string, now: int): (r: Result<seq<BookingResultDto>>)
    ensures r.Ok? <==> userId in users && SortValidNameCheck(sort) == Pass
    ensures userId !in users ==> r == Err(UserNotFound(userId))
    ensures userId in users && SortValidNameCheck(sort).Fail? ==> r == Err(InvalidSortType("Unknown state: " + sort))
    ensures r.Ok? ==> OrderedListing(r.value, bookings, party, userId, BucketOf(SortTypes.ParseState(sort).value), now)
  {
    if userId !in users then Err(UserNotFound(userId))
    else match SortValidNameCheck(sort)
      case Fail(e) => Err(e)
      case Pass =>
        var bucket := BucketOf(SortTypes.ParseState(sort).value);
        OrderedDtoList(bookings, party, userId, bucket, now);
        Ok(ToBookingResultDtoList(FindOrdered(bookings, party, userId, bucket, now)))
  }

  /** Mapping the start-descending query result keeps its order and maps
      every selected booking. */
  lemma OrderedDtoList(bookings: seq<Booking>, party: Party, userId: int, bucket: Bucket, now: int)
    ensures OrderedListing(ToBookingResultDtoList(FindOrdered(bookings, party, userId, bucket, now)),
                           bookings, party, userId, bucket, now)
  {
    var all := FindOrdered(bookings, party, userId, bucket, now);
    var r := ToBookingResultDtoList(all);
    forall i, j | 0 <= i < j < |r| ensures r[i].start >= r[j].start {
      assert r[i].start == StartOf(all[i]) && r[j].start == StartOf(all[j]);
    }
    assert |multiset(all)| == |multiset(Select(bookings, party, userId, bucket, now))|;
    DtoListCoversSelection(bookings, party, userId, bucket, now);
    DtoListOnlySelection(bookings, party, userId, bucket, now);
  }

  /** Every selected booking appears in the mapped listing. */
  lemma DtoListCoversSelection(bookings: seq<Booking>, party: Party, userId: int, bucket: Bucket, now: int)
    ensures var r := ToBookingResultDtoList(FindOrdered(bookings, party, userId, bucket, now));
            forall b :: b in bookings && Matches(b, party, userId, bucket, now) ==> ToBookingResultDto(b) in r
  {
    var all := FindOrdered(bookings, party, userId, bucket, now);
    var r := ToBookingResultDtoList(all);
    forall b | b in bookings && Matches(b, party, userId, bucket, now) ensures ToBookingResultDto(b) in r {
      var k :| 0 <= k < |all| && all[k] == b;
      assert r[k] == ToBookingResultDto(b);
    }
  }

  /** Every entry of the mapped listing is the DTO of a selected booking. */
  lemma DtoListOnlySelection(bookings: seq<Booking>, party: Party, userId: int, bucket: Bucket, now: int)
    ensures var r := ToBookingResultDtoList(FindOrdered(bookings, party, userId, bucket, now));
            forall i :: 0 <= i < |r| ==>
              exists b :: b in bookings && Matches(b, party, userId, bucket, now) && r[i] == ToBookingResultDto(b)
  {
    var all := FindOrdered(bookings, party, userId, bucket, now);
    var r := ToBookingResultDtoList(all);
    forall i | 0 <= i < |r|
      ensures exists b :: b in bookings && Matches(b, party, userId, bucket, now) && r[i] == ToBookingResultDto(b)
    {
      assert all[i] in all;
    }
  }

  /** The server's first page is the older unpaged listing whenever the page
      is at least as long as the booking table and the token is a state name;
      an unknown token is refused by both, with different exceptions. */
  lemma FirstPageIsLegacyListing(users: map<int, User>, bookings: seq<Booking>, party: Party, userId: int,
                                 sort: string, size: int, now: int)
    requires size >= 1 && size >= |bookings|
    ensures SortValidNameCheck(sort) == Pass || userId !in users
            ==> (PagedBookingService.ListBookings(users, bookings, party, userId, sort, 0, size, now)
                 == ListBookings(users, bookings, party, userId, sort, now))
    ensures SortValidNameCheck(sort).Fail? && userId in users
            ==> PagedBookingService.ListBookings(users, bookings, party, userId, sort, 0, size, now) == Err(NoEnumConstant(sort))
                && ListBookings(users, bookings, party, userId, sort, now) == Err(InvalidSortType("Unknown state: " + sort))
  {
    if userId in users && SortTypes.ParseState(sort).Ok? {
      FirstPageIsWholeListing(bookings, party, userId, BucketOf(SortTypes.ParseState(sort).value), now, size);
    }
  }
}
