# ShareIt booking, item, request and user core in Dafny

ShareIt is a service for lending things. Users offer items. Other users ask
for items they cannot find (item requests), book items for a time span, and
comment on items they have booked. An owner approves or rejects each booking.
The repository has two generations:

- the first version (`src/`) is a single application. It has two user and
  item services: one keeps users and items in hash maps (`UserStorage`,
  `ItemStorage`), and a later one uses JPA repositories.
- the second version splits into a gateway, which validates requests and
  forwards them over HTTP, and a server, which does the work against the
  database with paged queries.

This project models, as Dafny functions, methods and lemmas:

- the booking lifecycle of both versions. A booking is created WAITING, then
  approved or rejected by the item's owner, and APPROVED is final. It also
  covers who may see a booking and the six listing states (ALL, CURRENT,
  PAST, FUTURE, WAITING, REJECTED) a booker or an owner can list by.
- the booking repository queries: the time buckets, the status queries, the
  start-descending order, the page window, and the comment-eligibility
  query.
- the gateway's booking checks and its case-insensitive `SortType.from`. The
  gateway and the server deliberately parse the state token differently.
- the item service: an owner's view with the last and the next approved
  booking, comments only after a finished approved booking, partial updates,
  and case-insensitive search.
- item requests: the caller's own requests, other users' requests paged,
  and the items that answer a request.
- the JPA user service and its e-mail uniqueness checks.
- the in-memory `UserStorage` and `ItemStorage` classes and the first
  version's services in front of them.

How the source's form is kept:

- Database tables are values. The booking, item, request and comment tables
  are sequences whose position `i` holds the row with generated id `i + 1`
  (`Database.At`). The user table is a map.
- Service methods that save something are methods that change the fields of
  a `Database.Db` object. Queries are functions.
- The in-memory stores are classes with a counter, and their lookups walk the
  hash map's keys in a loop.
- Java's truncating integer division, the `PageRequest.of` preconditions and
  the first-of-ties rule of `Stream.max`/`min` are written out.
- Exceptions are the `Err`/`Fail` cases of `Common.Result` and
  `Common.Outcome`, one `Common.Error` constructor per exception class.
- The clock is the parameter `now`.

The server's booking listings call the enum's built-in `SortType.valueOf` on
the token (`server/.../BookingServiceImpl.java:90`). That method throws
`IllegalArgumentException` for an unknown name before the `switch` is
entered, so the `InvalidSortTypeException("Unknown state: ...")` default at
lines 108-109 is never reached. The model follows the code:
`SortTypes.ParseState` fails with `NoEnumConstant`. The first version checks
the name itself first (`sortValidNameCheck`) and does raise
`InvalidSortType`.

## Model

| member | source | states |
|---|---|---|
| Paging.JavaDiv | src/main/java/ru/practicum/shareit/item/service/ItemServiceImpl.java:180 | Java's `/` truncates toward zero: the Euclidean quotient for a non-negative dividend, the negated quotient of the magnitude for a negative one |
| Paging.NegativeQuotient | src/main/java/ru/practicum/shareit/item/service/ItemServiceImpl.java:180 | for a negative `from` and a positive `size` the page index is negative exactly when `from <= -size`, so small negative offsets silently fall on page 0 |
| Paging.CreatePageRequest | src/main/java/ru/practicum/shareit/item/service/ItemServiceImpl.java:175-183 | succeeds exactly when `size >= 1` and `from > -size`; the `createPageRequest` of the server booking service (server BookingServiceImpl.java:158-167) computes the same page, and its start-descending sort is in `FindPage`; the page length is `size`; `from == 0` gives page 0; for `from >= 0` the page is the one containing offset `from`, starting at `from` when it is a multiple of `size`; `size == 0` with `from != 0` is a division by zero, any other failure an invalid page request |
| Paging.Page | server/src/main/java/ru/practicum/shareit/booking/service/BookingServiceImpl.java:158-167 | the page is the window `[page*size, page*size+size)` of the ordered result cut at its end: at most `size` entries, each the element at its offset |
| Paging.AlignedPageStartsAtFrom | server/src/main/java/ru/practicum/shareit/booking/service/BookingServiceImpl.java:161-165 | when `from` is a multiple of `size` the page is exactly the slice from `from` of length `size` (cut at the end) |
| Paging.MisalignedPageStartsBeforeFrom | server/src/main/java/ru/practicum/shareit/booking/service/BookingServiceImpl.java:164 | with from = 3 and size = 2 the page index is 1, so the window starts at offset 2, before `from` |
| Paging.ConsecutivePagesTile | server/src/main/java/ru/practicum/shareit/booking/service/BookingServiceImpl.java:158-167 | pages p and p+1 of the same length are the contiguous slice of length 2n starting at p*n, with nothing skipped or repeated |
| Paging.ThreeResultsInPagesOfTwo | server/src/test/java/ru/practicum/shareit/request/service/ItemRequestServiceImplIT.java:132-142 | three results paged by two: the page at from = 0 holds two, the page at from = 2 holds one |
| Seqs.FirstMaxIndex | src/main/java/ru/practicum/shareit/item/service/ItemServiceImpl.java:141 | `Stream.max` by a key: the chosen element has a maximal key and every earlier element a strictly smaller one, so the first among ties wins |
| Seqs.FirstMinIndex | src/main/java/ru/practicum/shareit/item/service/ItemServiceImpl.java:148 | `Stream.min` by a key: the chosen element has a minimal key and every earlier element a strictly larger one |
| Seqs.SortDesc | src/main/java/ru/practicum/shareit/booking/repository/BookingRepository.java:14-16 | `order by ... desc`: the result is sorted by the key descending and is a permutation (same multiset) of the input |
| Database.At | server/src/main/java/ru/practicum/shareit/booking/service/BookingServiceImpl.java:55-56 | `findById` on a table with generated ids: a row exists exactly for ids 1..|table|, and it is the row at position id-1 |
| BookingRepository.StatusValueOf | server/src/main/java/ru/practicum/shareit/booking/service/BookingServiceImpl.java:105-107 | `BookingStatus.valueOf` accepts exactly the three status names, each giving the status of that name |
| BookingRepository.StatusTokensSelectTheirStatus | server/src/main/java/ru/practicum/shareit/booking/service/BookingServiceImpl.java:103-107 | exactly the WAITING and REJECTED tokens dispatch to the status query, each with the status of the same name |
| BookingRepository.Select | server/src/main/java/ru/practicum/shareit/booking/repository/BookingRepository.java:14-52 | a booking is selected exactly when it belongs to the party (booker id, or its item's owner id, equal to the argument) and meets the time or status condition; the selection is a sub-multiset of the table |
| BookingRepository.FindOrdered | src/main/java/ru/practicum/shareit/booking/repository/BookingRepository.java:14-52 | the older queries return exactly the selected bookings, as a permutation of the selection, ordered by start descending |
| BookingRepository.FindPage | server/src/main/java/ru/practicum/shareit/booking/service/BookingServiceImpl.java:158-167 | the server queries return at most `size` bookings, each in the table and selected, ordered by start descending |
| BookingRepository.FindPageIsWindow | server/src/main/java/ru/practicum/shareit/booking/service/BookingServiceImpl.java:158-167 | the page is the window `Paging.Page` of the start-descending selection that the page request names, so it holds the entries at offsets page*size, page*size+1, ..., at most `size` of them, cut at the end |
| BookingRepository.PageOfSortedIsSorted | server/src/main/java/ru/practicum/shareit/booking/service/BookingServiceImpl.java:160-165 | a page of a start-descending result is start-descending and holds only rows of that result |
| BookingRepository.FirstPageIsWholeListing | server/src/main/java/ru/practicum/shareit/booking/repository/BookingRepository.java:14-52 | a first page at least as long as the table equals the older unpaged result |
| BookingRepository.TimeBucketsDisjoint | server/src/main/java/ru/practicum/shareit/booking/repository/BookingRepository.java:18-28 | for a booking with start < end, no two of PAST (end < now), CURRENT (start < now < end) and FUTURE (start > now) hold at once |
| BookingRepository.TimeBucketsMissOnlyEndpoints | server/src/main/java/ru/practicum/shareit/booking/repository/BookingRepository.java:18-28 | the comparisons are strict: such a booking is in none of the three buckets exactly when now equals its start or its end |
| BookingRepository.StatusQueryIgnoresClock | server/src/main/java/ru/practicum/shareit/booking/repository/BookingRepository.java:30-32 | the status queries (booker and owner, lines 30-32 and 50-52) have no time condition: the selection is the same at any two moments |
| BookingRepository.FindAllItemBookingsByItemId | server/src/main/java/ru/practicum/shareit/booking/repository/BookingRepository.java:54-56 | every projected booking has the requested status; every booking of the item with that status is projected; every entry comes from a booking of the item |
| BookingRepository.FindEligibleForComment | server/src/main/java/ru/practicum/shareit/booking/repository/BookingRepository.java:58-60 | a booking is returned exactly when its item, booker and status match and it ended before now |
| BookingRepository.EligibleIsPastOfBooker | src/main/java/ru/practicum/shareit/booking/repository/BookingRepository.java:58-60 | an eligible booking is a PAST booking of that booker and a booking of that booker with that status |
| SortTypes.ValuesEnumerate | gateway/src/main/java/ru/practicum/shareit/booking/dto/SortType.java:5-11 | there are exactly six constants, each listed once in `values()` |
| SortTypes.NameIsUpper | gateway/src/main/java/ru/practicum/shareit/booking/dto/SortType.java:5-11 | every constant name is already upper case |
| SortTypes.FromIn | gateway/src/main/java/ru/practicum/shareit/booking/dto/SortType.java:14-19 | the loop of `from` from position i: a found constant matches ignoring case and comes from position i on; nothing is found exactly when no constant from position i on matches |
| SortTypes.From | gateway/src/main/java/ru/practicum/shareit/booking/dto/SortType.java:13-20 | a found constant matches the text ignoring case; the result is empty exactly when no constant matches |
| SortTypes.FromExact | gateway/src/main/java/ru/practicum/shareit/booking/dto/SortType.java:13-20 | `from(s)` is constant t exactly when the name of t equals s ignoring case |
| SortTypes.FromName | gateway/src/main/java/ru/practicum/shareit/booking/dto/SortType.java:14-17 | round trip: every constant's own name parses back to it |
| SortTypes.FromIgnoresCase | gateway/src/main/java/ru/practicum/shareit/booking/dto/SortType.java:15 | two texts equal ignoring case parse to the same result |
| SortTypes.ValueOf | server/src/main/java/ru/practicum/shareit/booking/service/BookingServiceImpl.java:90 | `valueOf` on the server enum accepts exactly the six names spelled exactly |
| SortTypes.ParseState | server/src/main/java/ru/practicum/shareit/booking/service/BookingServiceImpl.java:90 | a token is accepted exactly when `valueOf` accepts it, and then its name is the token; otherwise the built-in `valueOf` fails with an IllegalArgumentException naming the token |
| SortTypes.ResolveState | gateway/src/main/java/ru/practicum/shareit/booking/controller/BookingController.java:58-59 | the gateway accepts a state exactly when some constant matches it ignoring case, otherwise fails with IllegalArgument("Unknown state: " + state) |
| SortTypes.DefaultStateIsAll | gateway/src/main/java/ru/practicum/shareit/booking/controller/BookingController.java:55-59 | the default state "all" resolves to ALL |
| SortTypes.GatewayTokenAcceptedByServer | gateway/src/main/java/ru/practicum/shareit/booking/controller/BookingController.java:58-61 | what the gateway forwards, the resolved constant's name, is accepted by the server and names the same constant |
| SortTypes.LowerCaseOnlyPassesGateway | gateway/src/main/java/ru/practicum/shareit/booking/controller/BookingController.java:58-61 | "future" passes the gateway as FUTURE but is refused by the server's exact `valueOf` |
| GatewayBooking.AddBookingCheck | gateway/src/main/java/ru/practicum/shareit/booking/service/BookingRemoteCommandImpl.java:29-37 | a booking is forwarded exactly when start is strictly before end; start equal to end and start after end both fail with a validation error |
| GatewayBooking.ListingCall | gateway/src/main/java/ru/practicum/shareit/booking/service/BookingRemoteCommandImpl.java:51-66 | the call is for the user, its template starts with the prefix and `?state={state}`, `state` is always sent; `from` and `size` are sent (with their values) exactly when both are given, otherwise `state` is the only parameter |
| GatewayBooking.ListingTemplateMatchesParams | gateway/src/main/java/ru/practicum/shareit/booking/service/BookingRemoteCommandImpl.java:53-65 | the variables of the URI template are exactly the keys of the parameter map, in both forms |
| GatewayBooking.OwnerListingOnlyAddsPrefix | gateway/src/main/java/ru/practicum/shareit/booking/service/BookingRemoteCommandImpl.java:68-84 | the owner listing sends the same parameters and template as the booker listing except for the "/owner" prefix |
| GatewayBooking.ControllerListing | gateway/src/main/java/ru/practicum/shareit/booking/controller/BookingController.java:20-73 | a listing request is forwarded exactly when from >= 0, size >= 1 and the state is known to the gateway; a negative from or a size below 1 is refused first with ConstraintViolation (the `@Validated` class with `@PositiveOrZero`/`@Positive` parameters), an unknown state then with IllegalArgument("Unknown state: " + state) |
| GatewayBooking.BadPagingIsRefused | gateway/src/test/java/ru/practicum/shareit/booking/controller/BookingControllerIT.java:125-180 | from = -1, size = 0 and size = -1 are refused with ConstraintViolation for both listings and any state, before anything is forwarded |
| GatewayBooking.ControllerAlwaysSendsPaging | gateway/src/main/java/ru/practicum/shareit/booking/controller/BookingController.java:53-62 | through the controller from and size always have values (defaults 0 and 10), so the three-parameter form is always sent, with the canonical state name the server accepts and a window the server's page request accepts |
| BookingMapper.ToBookingResultDtoList | src/main/java/ru/practicum/shareit/booking/BookingMapper.java:31-35 | the list mapping keeps length and order, element by element |
| BookingMapper.DtoListOfConcat | src/main/java/ru/practicum/shareit/booking/BookingMapper.java:31-35 | mapping a concatenation is concatenating the mapped parts |
| BookingMapper.ResultDtoRoundTrip | src/main/java/ru/practicum/shareit/booking/BookingMapper.java:20-29 | id, start, end and status are copied, the booker as {id, name, email} and the item as {id, name, description, available}: with the item's owner and request put back the booking is recovered |
| ItemMapper.PostDtoRoundTrip | src/main/java/ru/practicum/shareit/item/ItemMapper.java:24-43 | requestId is the request's id when there is one and null otherwise; with the owner put back the item is recovered |
| ItemMapper.PostDtoExtendsItemDto | src/main/java/ru/practicum/shareit/item/ItemMapper.java:15-41 | `toItemDto` and `toItemPostDto` agree on id, name, description and available |
| ItemMapper.WithBookingsKeepsParts | src/main/java/ru/practicum/shareit/item/ItemMapper.java:45-56 | the item fields, the last and next booking and the comments are passed through unchanged |
| ItemRepository.FindItemsByOwnerId | server/src/main/java/ru/practicum/shareit/item/repository/ItemRepository.java:16-18 | at most `size` entries, each the projection of an item owned by the argument |
| ItemRepository.SearchItemsByText | server/src/main/java/ru/practicum/shareit/item/repository/ItemRepository.java:22-26 | at most `size` entries, all available, each the projection of an available item whose lowered name or description contains the lowered text |
| ItemRepository.SearchIgnoresCase | server/src/test/java/ru/practicum/shareit/item/repository/ItemRepositoryIT.java:71-81 | texts equal after lowering give the same search result |
| ItemRepository.SearchFirstPageIsComplete | server/src/main/java/ru/practicum/shareit/item/repository/ItemRepository.java:22-26 | a first page at least as long as the table contains every matching item |
| ItemRepository.GetAllResponsesByRequestId | server/src/main/java/ru/practicum/shareit/item/repository/ItemRepository.java:28-31 | exactly the items whose request is the argument, each carrying that request id |
| PagedBookingService.AddBookingCheck | server/src/main/java/ru/practicum/shareit/booking/service/BookingServiceImpl.java:33-41 | the booking passes exactly when the booker exists, the item exists, the booker is not its owner and it is available; each failure is the first failed check in that order |
| PagedBookingService.OwnItemIsNeverBookable | server/src/main/java/ru/practicum/shareit/booking/service/BookingServiceImpl.java:36-38 | the owner of an item can never book it |
| PagedBookingService.AddBooking | server/src/main/java/ru/practicum/shareit/booking/service/BookingServiceImpl.java:33-50 | succeeds exactly when the checks pass; then exactly one WAITING booking with the next id, the given times, the item and the booker is appended and returned as a DTO; on failure the table is unchanged |
| PagedBookingService.DecideCheck | server/src/main/java/ru/practicum/shareit/booking/service/BookingServiceImpl.java:53-63 | a decision passes exactly when the owner exists, the booking exists, it is not APPROVED and the caller owns its item; failures in that order |
| PagedBookingService.Decided | server/src/main/java/ru/practicum/shareit/booking/service/BookingServiceImpl.java:64-68 | approved sets APPROVED, otherwise REJECTED; nothing else of the booking changes |
| PagedBookingService.DecideTransition | server/src/main/java/ru/practicum/shareit/booking/service/BookingServiceImpl.java:53-70 | one call changes at most the decided booking, changes nothing on a failed check, and otherwise sets that booking's status |
| PagedBookingService.UpdateBookingStatus | server/src/main/java/ru/practicum/shareit/booking/service/BookingServiceImpl.java:53-70 | the booking table becomes the transition `DecideTransition` describes; success exactly when the checks pass, returning the updated booking; the older `updateBookingStatus` (src BookingServiceImpl.java:54-71) has the same checks in the same order and the same change |
| PagedBookingService.ApprovedStaysApproved | server/src/main/java/ru/practicum/shareit/booking/service/BookingServiceImpl.java:57-59 | APPROVED is terminal: after any sequence of `updateBookingStatus` calls, each applied as `DecideTransition` describes, an approved booking is still approved |
| PagedBookingService.OnlyOwnerDecides | server/src/main/java/ru/practicum/shareit/booking/service/BookingServiceImpl.java:60-63 | any sequence of `updateBookingStatus` calls by users other than the item's owner leaves the booking unchanged |
| PagedBookingService.RejectedCanBeRedecided | server/src/main/java/ru/practicum/shareit/booking/service/BookingServiceImpl.java:57-68 | a REJECTED booking passes the terminal check, so its owner can approve it |
| PagedBookingService.GetBooking | server/src/main/java/ru/practicum/shareit/booking/service/BookingServiceImpl.java:74-83 | succeeds exactly when the user exists, the booking exists and the user is its booker or its item's owner; failures UserNotFound, BookingNotFound, AccessDenied in that order |
| PagedBookingService.ListBookings | server/src/main/java/ru/practicum/shareit/booking/service/BookingServiceImpl.java:87-139 | fails with UserNotFound, then the page-request error, then the IllegalArgumentException of `valueOf` (the `Unknown state` default is unreachable); on success the DTOs of exactly the window the page request names of the bookings selected for the party and the token's bucket sorted by start descending: at most `size` of them, latest start first, each the DTO of a selected booking |
| LegacyBookingService.AddBookingCheck | src/main/java/ru/practicum/shareit/booking/service/BookingServiceImpl.java:28-42 | the server checks, then start equal to end and start after end each fail with WrongBookingTime: passes exactly when the server checks pass and start < end |
| LegacyBookingService.GatewayPrecheckSubsumesTimeChecks | src/main/java/ru/practicum/shareit/booking/service/BookingServiceImpl.java:37-42 | a booking the gateway forwards never fails the older time checks |
| LegacyBookingService.AddBooking | src/main/java/ru/practicum/shareit/booking/service/BookingServiceImpl.java:28-51 | succeeds exactly when the checks pass, appending one WAITING booking with the next id; nothing is saved on failure |
| LegacyBookingService.GetBooking | src/main/java/ru/practicum/shareit/booking/service/BookingServiceImpl.java:74-82 | no user check: succeeds exactly when the booking exists and the user is its booker or owner; BookingNotFound or AccessDenied otherwise |
| LegacyBookingService.GetBookingVersionsAgree | src/main/java/ru/practicum/shareit/booking/service/BookingServiceImpl.java:74-82 | for an existing user both versions agree; for an unknown user the server refuses with UserNotFound while the older version still answers |
| LegacyBookingService.SortValidNameCheck | src/main/java/ru/practicum/shareit/booking/service/BookingServiceImpl.java:136-142 | passes exactly when some constant has the token as its exact name, otherwise InvalidSortType("Unknown state: " + token) |
| LegacyBookingService.ListBookings | src/main/java/ru/practicum/shareit/booking/service/BookingServiceImpl.java:85-134 | UserNotFound first, then the token check before any query; on success every selected booking is listed as a DTO, each once (as many entries as selected bookings) and nothing else, latest start first |
| LegacyBookingService.OrderedDtoList | src/main/java/ru/practicum/shareit/booking/service/BookingServiceImpl.java:85-108 | mapping the start-descending query result gives a listing of exactly the selected bookings, as many entries as selected bookings, in start-descending order |
| LegacyBookingService.FirstPageIsLegacyListing | src/main/java/ru/practicum/shareit/booking/service/BookingServiceImpl.java:85-108 | the server's first page, when at least as long as the table, is the older unpaged listing for every known state name and every unknown user; an unknown name is refused by both, by the server with the `valueOf` IllegalArgumentException and by the older version with InvalidSortType |
| ItemService.FindLastBookingOfItem | src/main/java/ru/practicum/shareit/item/service/ItemServiceImpl.java:138-143 | empty exactly when no booking is over or under way; otherwise such a booking with the latest end, the first among equal ends |
| ItemService.FindNextBookingOfItem | src/main/java/ru/practicum/shareit/item/service/ItemServiceImpl.java:145-150 | empty exactly when no booking is still to start; otherwise such a booking with the earliest start, the first among equal starts |
| ItemService.LastBeganBeforeNext | src/main/java/ru/practicum/shareit/item/service/ItemServiceImpl.java:138-150 | for bookings with start <= end the last booking began before now and the next begins after now, so they are different bookings |
| ItemService.CommentsOfItem | src/main/java/ru/practicum/shareit/item/service/ItemServiceImpl.java:152-156 | one response per comment on the item and nothing else |
| ItemService.OwnerView | src/main/java/ru/practicum/shareit/item/service/ItemServiceImpl.java:100-103 | the item fields, the item's comments, and the last and next of the item's approved bookings, each drawn from those bookings |
| ItemService.GetItemResponseDtoById | src/main/java/ru/practicum/shareit/item/service/ItemServiceImpl.java:96-107 | UserNotFound, then ItemNotFound; the owner sees the owner view, anyone else the item and comments with no last or next booking |
| ItemService.NonOwnerViewIgnoresBookings | src/main/java/ru/practicum/shareit/item/service/ItemServiceImpl.java:104-106 | for a non-owner the answer does not depend on the bookings or the time |
| ItemService.OwnerSeesOwnApprovedBookings | src/main/java/ru/practicum/shareit/item/service/ItemServiceImpl.java:100-103 | the last and next bookings the owner sees come from approved bookings of that very item |
| ItemService.GetAllUserItems | src/main/java/ru/practicum/shareit/item/service/ItemServiceImpl.java:82-92 | UserNotFound, then the page-request error; otherwise one owner view per item of the owner's page, in order |
| ItemService.ListingAgreesWithItemView | src/main/java/ru/practicum/shareit/item/service/ItemServiceImpl.java:82-107 | every entry of the owner's listing is what the owner gets opening that item |
| ItemService.AddItemCheck | src/main/java/ru/practicum/shareit/item/service/ItemServiceImpl.java:42-51 | passes exactly when the owner exists and a given request id names a stored request; UserNotFound before ItemRequestNotFound |
| ItemService.AddItem | src/main/java/ru/practicum/shareit/item/service/ItemServiceImpl.java:42-60 | on success exactly one item with the next id, the given fields, the caller as owner and the request is appended and returned; nothing changes on failure |
| ItemService.SavedItemAnswersRequest | src/main/java/ru/practicum/shareit/item/service/ItemServiceImpl.java:45-57 | an item saved for a request is among that request's responses |
| ItemService.AddCommentCheck | src/main/java/ru/practicum/shareit/item/service/ItemServiceImpl.java:63-70 | passes exactly when the author exists, the item exists and the author has an approved booking of it that has ended; failures in that order |
| ItemService.CommenterBookedTheItem | src/main/java/ru/practicum/shareit/item/service/ItemServiceImpl.java:66-70 | someone allowed to comment booked the item, was approved, and the booking is over |
| ItemService.AddComment | src/main/java/ru/practicum/shareit/item/service/ItemServiceImpl.java:63-78 | on success one comment with the next id, the text, the item, the author and `now` is appended; nothing changes on failure |
| ItemService.ApplyItemUpdate | src/main/java/ru/practicum/shareit/item/service/ItemServiceImpl.java:117-125 | each present field is written, each absent field kept; id, owner and request never change |
| ItemService.EmptyUpdateChangesNothing | src/main/java/ru/practicum/shareit/item/service/ItemServiceImpl.java:117-125 | an update with no field present leaves the item as it was |
| ItemService.UpdateIsIdempotent | src/main/java/ru/practicum/shareit/item/service/ItemServiceImpl.java:117-125 | applying the same update twice is applying it once |
| ItemService.UpdateItemCheck | src/main/java/ru/practicum/shareit/item/service/ItemServiceImpl.java:110-116 | passes exactly when the caller exists, the item exists and the caller owns it; UserNotFound, ItemNotFound, AccessDenied in that order |
| ItemService.UpdateItem | src/main/java/ru/practicum/shareit/item/service/ItemServiceImpl.java:110-127 | on success only that item changes, by `ApplyItemUpdate`; nothing changes on failure |
| ItemService.SearchItem | src/main/java/ru/practicum/shareit/item/service/ItemServiceImpl.java:131-136 | a blank text gives an empty result before the page window is built; otherwise the page-request error, or the repository search for the lowered text |
| ItemService.BlankSearchIgnoresPaging | src/main/java/ru/practicum/shareit/item/service/ItemServiceImpl.java:132-134 | a blank search succeeds even with a page window that would fail |
| ItemService.SearchFindsOnlyMatches | src/main/java/ru/practicum/shareit/item/service/ItemServiceImpl.java:131-136 | everything a search returns is an available item whose name or description contains the text ignoring case |
| ItemRequestService.RequestView | server/src/main/java/ru/practicum/shareit/request/ItemRequestMapper.java:13-29 | the request's id, description and creation time, and exactly the items answering it |
| ItemRequestService.AddItemRequest | server/src/main/java/ru/practicum/shareit/request/service/ItemRequestServiceImpl.java:34-39 | UserNotFound if the requester is unknown, nothing saved; otherwise one request with the next id, the description, the requester and `now` is appended and returned with no items |
| ItemRequestService.OwnRequestsAreExactlyTheCallers | server/src/main/java/ru/practicum/shareit/request/repository/ItemRequestRepository.java:12 | the caller's own requests are exactly theirs, newest first |
| ItemRequestService.OthersRequestsExcludeCaller | server/src/main/java/ru/practicum/shareit/request/service/ItemRequestServiceImpl.java:56-71 | a page of the other requests holds no request of the caller, at most `size` of them, newest first |
| ItemRequestService.NewRequestIsOwn | server/src/main/java/ru/practicum/shareit/request/service/ItemRequestServiceImpl.java:34-71 | a request just added is among its requester's own requests and never on that requester's pages of other requests |
| ItemRequestService.GetUserRequests | server/src/main/java/ru/practicum/shareit/request/service/ItemRequestServiceImpl.java:43-52 | UserNotFound, or one view per own request, newest first |
| ItemRequestService.GetAllRequests | server/src/main/java/ru/practicum/shareit/request/service/ItemRequestServiceImpl.java:56-71 | UserNotFound, then the page-request error; otherwise one view per request of the page of other requests, in order |
| ItemRequestService.ThreeRequestsInPagesOfTwo | server/src/test/java/ru/practicum/shareit/request/service/ItemRequestServiceImplIT.java:132-142 | three requests by someone else paged by two: two at from = 0, one at from = 2 |
| ItemRequestService.GetRequestById | server/src/main/java/ru/practicum/shareit/request/service/ItemRequestServiceImpl.java:75-82 | UserNotFound, then ItemRequestNotFound; otherwise the request with exactly the items answering it |
| ItemRequestService.RequestByIdAgreesWithListing | server/src/main/java/ru/practicum/shareit/request/service/ItemRequestServiceImpl.java:43-82 | with generated ids, the single view equals the view the listings build |
| UserService.ApplyUserUpdate | src/main/java/ru/practicum/shareit/user/service/UserService.java:45-50 | each present field of the change is written, each absent one kept; the id never changes |
| UserService.EmptyUserUpdateChangesNothing | src/main/java/ru/practicum/shareit/user/service/UserService.java:45-50 | an update with no field present leaves the user as it was |
| UserService.UserUpdateIsIdempotent | src/main/java/ru/practicum/shareit/user/service/UserService.java:45-50 | applying the same update twice is applying it once |
| UserService.AddUser | src/main/java/ru/practicum/shareit/user/service/UserService.java:22-29 | refused with EmailAlreadyExists exactly when the email is taken, nothing changed; otherwise the user is stored under a fresh id |
| UserService.GetUserById | src/main/java/ru/practicum/shareit/user/service/UserService.java:37-41 | the stored user unchanged, or UserNotFound exactly when absent |
| UserService.GetAllUsers | src/main/java/ru/practicum/shareit/user/service/UserService.java:32-34 | exactly the stored users |
| UserService.UpdateUser | src/main/java/ru/practicum/shareit/user/service/UserService.java:43-57 | UserNotFound; EmailAlreadyExists when another user has the merged email, with nothing changed; otherwise only that user changes, by `ApplyUserUpdate` |
| UserService.KeepingTheEmailNeverConflicts | src/main/java/ru/practicum/shareit/user/service/UserService.java:51-56 | an update that keeps the email never fails the email check |
| UserService.DeleteUser | src/main/java/ru/practicum/shareit/user/service/UserService.java:59-66 | removes exactly that user, or UserNotFound with nothing changed |
| UserService.DeletedUserIsGone | src/main/java/ru/practicum/shareit/user/service/UserService.java:59-66 | a deleted user is no longer found; every other lookup is unchanged |
| ItemStore.LoweredSearchIsRepositorySearch | src/main/java/ru/practicum/shareit/item/ItemStorage.java:61-69 | the in-memory search on the lowered text matches exactly the items the repository search matches |
| Common.LowerIdempotent | src/main/java/ru/practicum/shareit/item/ItemStorage.java:63-66 | lowering an already lowered text changes nothing, so the text the service lowers and the storage compares against lowered fields agree |
| ItemStore.ItemStorage.constructor | src/main/java/ru/practicum/shareit/item/ItemStorage.java:18 | an empty store whose counter starts at 1 |
| ItemStore.ItemStorage.AddItem | src/main/java/ru/practicum/shareit/item/ItemStorage.java:21-32 | the item is stored under the counter's value, above every existing id, owned by the caller, with no request; the counter advances by one and nothing else changes |
| ItemStore.ItemStorage.GetAllUserItems | src/main/java/ru/practicum/shareit/item/ItemStorage.java:34-42 | exactly one entry per stored item of the user and nothing else |
| ItemStore.ItemStorage.GetItemById | src/main/java/ru/practicum/shareit/item/ItemStorage.java:44-46 | the projection of the stored item |
| ItemStore.ItemStorage.UpdateItem | src/main/java/ru/practicum/shareit/item/ItemStorage.java:48-59 | only that item changes, by `ApplyItemUpdate`; the counter is unchanged |
| ItemStore.ItemStorage.SearchItem | src/main/java/ru/practicum/shareit/item/ItemStorage.java:61-69 | exactly one entry per available item whose lowered name or description contains the text, and nothing else |
| ItemStore.ItemStorage.ItemExistenceCheck | src/main/java/ru/practicum/shareit/item/ItemStorage.java:71-77 | fails with ItemNotFound exactly when the id is absent |
| ItemStore.ItemStorage.AccessCheck | src/main/java/ru/practicum/shareit/item/ItemStorage.java:79-85 | fails with AccessDenied exactly when the user is not the owner |
| UserStore.UsedByOtherIsTakenByOther | src/main/java/ru/practicum/shareit/user/UserStorage.java:70-78 | with users stored under their ids, "another user by id field" and "another key" are the same test |
| UserStore.ApplyEntries | src/main/java/ru/practicum/shareit/user/UserStorage.java:33-46 | walking the entries in order: only "email" and "name" act, other keys are ignored; an email is checked against the other users before it is written; the first conflict stops the walk with an email entry's value as the error; only that user changes and keeps its id |
| UserStore.NameOnlyUpdateSucceeds | src/main/java/ru/practicum/shareit/user/UserStorage.java:33-46 | entries without an "email" key never fail |
| UserStore.ApplyEntriesKeepsEmailsUnique | src/main/java/ru/practicum/shareit/user/UserStorage.java:36-38 | walking the entries keeps emails unique, whether it completes or stops at a conflict |
| UserStore.ConflictKeepsEarlierEntries | src/main/java/ru/practicum/shareit/user/UserStorage.java:33-46 | a conflict after a name entry leaves the new name written and the old email in place |
| UserStore.UserStorage.constructor | src/main/java/ru/practicum/shareit/user/UserStorage.java:16 | an empty store whose counter starts at 1 |
| UserStore.UserStorage.AddUser | src/main/java/ru/practicum/shareit/user/UserStorage.java:19-23 | the user gets the counter's value as id and is stored under it; the counter advances by one |
| UserStore.UserStorage.GetAllUsers | src/main/java/ru/practicum/shareit/user/UserStorage.java:25-27 | exactly the stored users |
| UserStore.UserStorage.GetUserById | src/main/java/ru/practicum/shareit/user/UserStorage.java:29-31 | the stored user, or nothing when absent |
| UserStore.UserStorage.EmailCheck | src/main/java/ru/practicum/shareit/user/UserStorage.java:60-68 | fails with EmailAlreadyExists exactly when some stored user has the email |
| UserStore.UserStorage.EmailForUpdateCheck | src/main/java/ru/practicum/shareit/user/UserStorage.java:70-78 | fails exactly when a user other than the one being updated has the email |
| UserStore.UserStorage.UpdateUser | src/main/java/ru/practicum/shareit/user/UserStorage.java:33-46 | the map becomes what `ApplyEntries` describes, with its outcome as the result |
| UserStore.UserStorage.DeleteUser | src/main/java/ru/practicum/shareit/user/UserStorage.java:48-50 | removes only that key; emails stay unique |
| UserStore.UserStorage.UserExistenceCheck | src/main/java/ru/practicum/shareit/user/UserStorage.java:52-58 | fails with UserNotFound exactly when the id is absent |
| MemoryUserService.AddUserCheck | src/main/java/ru/practicum/shareit/user/UserService.java:15-24 | null fields fail with LackOfInformation, then blank fields, then a stored email with EmailAlreadyExists |
| MemoryUserService.AddUser | src/main/java/ru/practicum/shareit/user/UserService.java:15-25 | a refused user changes nothing; otherwise the store's `addUser`; emails stay unique |
| MemoryUserService.GetUserById | src/main/java/ru/practicum/shareit/user/UserService.java:31-34 | the stored user, or UserNotFound |
| MemoryUserService.UpdateUser | src/main/java/ru/practicum/shareit/user/UserService.java:36-39 | UserNotFound with nothing changed; otherwise the store's entry walk; emails stay unique |
| MemoryUserService.DeleteUser | src/main/java/ru/practicum/shareit/user/UserService.java:41-44 | UserNotFound with nothing changed, otherwise only that entry removed; emails stay unique |
| MemoryItemService.AddItemCheck | src/main/java/ru/practicum/shareit/item/ItemServiceImpl.java:22-30 | null fields, then blank name or description, then a null user id fail with LackOfInformation; an unknown user with UserNotFound |
| MemoryItemService.AddItem | src/main/java/ru/practicum/shareit/item/ItemServiceImpl.java:22-32 | a refused item changes nothing; otherwise the store's `addItem` |
| MemoryItemService.GetAllUserItems | src/main/java/ru/practicum/shareit/item/ItemServiceImpl.java:35-39 | LackOfInformation, UserNotFound, or exactly the user's items |
| MemoryItemService.GetItemById | src/main/java/ru/practicum/shareit/item/ItemServiceImpl.java:42-45 | the stored item, or ItemNotFound |
| MemoryItemService.UpdateItemCheck | src/main/java/ru/practicum/shareit/item/ItemServiceImpl.java:48-52 | a null user id, an unknown user, an unknown item, then a non-owner, failing in that order |
| MemoryItemService.UpdateItem | src/main/java/ru/practicum/shareit/item/ItemServiceImpl.java:48-54 | a refused update changes nothing; otherwise only that item changes, by `ApplyItemUpdate` |
| MemoryItemService.SearchItem | src/main/java/ru/practicum/shareit/item/ItemServiceImpl.java:57-62 | a blank text finds nothing; otherwise exactly the items the repository's case-insensitive search matches |

## Left out

- Controllers, HTTP clients and error handlers are not modelled. The exceptions are the gateway booking controller's listing defaults (state "all", from 0, size 10) and its `from`/`size` constraints, which `GatewayBooking.ControllerListing` keeps, and the gateway's booking forwarding, which `GatewayBooking.ListingCall` models up to the URI template and parameter map. The REST status codes the handlers map exceptions to are not modelled.
- The gateway's forwarding of `updateBookingStatus` and `getBooking` sends its arguments unchanged to the server, so there is nothing to state about it beyond the server operations.
- JPA mechanics are not modelled: entity snapshots, lazy loading, `@Transactional` and concurrent requests. A failing service call leaves the tables as they were, which is what a rolled-back transaction gives. Each call works on one consistent state. Bookings hold the booked item and booker as values taken at booking time, not references.
- The clock (`LocalDateTime.now()`) is the parameter `now`, one value per call. Times are integers.
- `String.toLowerCase`, `toUpperCase`, `equalsIgnoreCase` and `isBlank` are modelled for ASCII letters and the space, tab and line-break characters. The database's `like`/`upper` and `%` and `_` inside the search text are treated as plain characters.
- Some queries have no `order by` at all: `findItemsByOwnerId` and `searchItemsByText` (server/src/main/java/ru/practicum/shareit/item/repository/ItemRepository.java:16-26), `findAllItemBookingsByItemId` (server/src/main/java/ru/practicum/shareit/booking/repository/BookingRepository.java:54-56) and `findAllByItem_Id` of the comment repository. The model returns their rows in table order. The database promises no order, so their pages, the first-of-ties pick of `ItemService.FindLastBookingOfItem` and `ItemService.FindNextBookingOfItem`, and rows that tie on a sort key rest on an order the source does not fix. Hash-map iteration order is modelled as an arbitrary choice of the next key, so the in-memory listings promise contents and length, not order.
- The server's `SortType` and `BookingStatus` enums and the first version's sort enum are not part of this model. They are taken to have the six listing names of the gateway's `SortType` and the three statuses.
- The listing fixture of `server/src/test/java/ru/practicum/shareit/booking/service/BookingServiceImplIT.java:131-159` (FUTURE returning bookings 4, 3, 2; WAITING and REJECTED one each) is not stated as a lemma of its own. The properties it exercises are stated for every table: `BookingRepository.Select` (which bookings a state selects), `BookingRepository.FindOrdered`, `BookingRepository.FindPage` and `BookingRepository.FindPageIsWindow` (start-descending order and the page window) and `PagedBookingService.ListBookings`.
- Ids consumed by failed inserts (database sequences) are not modelled. Ids are consecutive from 1.
- SortTypes.LowerCaseOnlyPassesGateway: states that the server refuses "future", not the exact message of the exception.
- The first version's `ItemServiceImpl.updateItem` passes its fields to `ItemStorage.updateItem`, whose parameter is a DTO of optional fields. The model uses that optional-field form (`ItemService.ItemUpdate`) on both sides.
- Deleting a user who still owns items or bookings, and other constraint violations such as null columns, fail in the database. These are not modelled: `UserService.DeleteUser` always removes the row.
- ItemStore.ItemStorage.GetItemById, ItemStore.ItemStorage.AccessCheck, ItemStore.ItemStorage.UpdateItem and UserStore.UserStorage.UpdateUser: require the id to be stored. The source would dereference null for an absent id, and every caller checks existence first.
- The first version's `UserService.getAllUsers` only delegates to `UserStorage.getAllUsers`, so `UserStore.UserStorage.GetAllUsers` stands for both.
- `UserMapper`, `CommentMapper` and `ItemRequestMapper` copy fields one to one. They are functions (`BookingMapper.ToUserResultDto`, `ItemMapper.ToCommentResponseDto`, `ItemRequestService.ToItemRequestDto`) without rows of their own.
- Logging is not modelled.
