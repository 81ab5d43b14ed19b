/** The server's `ItemRequestServiceImpl`: creating a request appends to the
    request table; the caller's own requests, everyone else's requests page by
    page, and one request by id are read-only listings, newest first, each
    request carrying the items that answer it. */
module ItemRequestService {
  import opened Common
  import opened Entities
  import opened Seqs
  import opened Paging
  import opened ItemRepository
  import opened Database

  datatype ItemRequestDto = ItemRequestDto(id: int, description: string, created: int,
                                           items: seq<ItemInItemRequestDto>)

  function CreatedOf(q: ItemRequest): int { q.created }

  /** `toItemRequestDto`: the request's id, description and creation time
      with the given responses. */
  function ToItemRequestDto(q: ItemRequest, responses: seq<ItemInItemRequestDto>): ItemRequestDto
  {
    ItemRequestDto(q.id, q.description, q.created, responses)
  }

  /** One request with the items that answer it. */
  function RequestView(q: ItemRequest, items: seq<Item>): (r: ItemRequestDto)
    ensures r.id == q.id && r.description == q.description && r.created == q.created
    ensures forall x :: x in r.items <==>
              exists it :: it in items && it.request == Some(q.id) && x == ToItemInItemRequestDto(it, q.id)
  {
    ToItemRequestDto(q, GetAllResponsesByRequestId(items, q.id))
  }

  /** `addItemRequest`: the requester must exist; the request is saved with
      the next id, the caller as requester and `now` as creation time, and is
      returned with no responses. */
  method AddItemRequest(db: Db, userId: int, description: string, now: int) returns (r: Result<ItemRequestDto>)
    requires db.Valid()
    modifies db`requests
    ensures db.Valid()
    ensures r.Ok? <==> userId in db.users
    ensures r.Err? ==> r.error == UserNotFound(userId) && db.requests == old(db.requests)
    ensures r.Ok? ==>
              var saved := ItemRequest(|old(db.requests)| + 1, description, userId, now);
              db.requests == old(db.requests) + [saved] && r.value == ItemRequestDto(saved.id, description, now, [])
  {
    if userId !in db.users {
      return Err(UserNotFound(userId));
    }
    var requester := db.users[userId];
    var saved := ItemRequest(|db.requests| + 1, description, requester.id, now);
    db.requests := db.requests + [saved];
    r := Ok(ToItemRequestDto(saved, []));
  }

  /** `getAllByRequester_IdOrderByCreatedDesc`. */
  function OwnRequests(requests: seq<ItemRequest>, userId: int): seq<ItemRequest>
  {
    SortDesc(Filter(requests, (q: ItemRequest) => q.requesterId == userId), CreatedOf)
  }

  /** `findAllByRequester_IdNot` with the page window sorted by creation time,
      newest first. */
  function OthersRequests(requests: seq<ItemRequest>, userId: int, pr: PageRequest): seq<ItemRequest>
  {
    Page(SortDesc(Filter(requests, (q: ItemRequest) => q.requesterId != userId), CreatedOf), pr)
  }

  /** The caller's own requests are exactly theirs, newest first. */
  lemma OwnRequestsAreExactlyTheCallers(requests: seq<ItemRequest>, userId: int)
    ensures forall q :: q in OwnRequests(requests, userId) <==> q in requests && q.requesterId == userId
    ensures forall i, j :: 0 <= i < j < |OwnRequests(requests, userId)|
              ==> OwnRequests(requests, userId)[i].created >= OwnRequests(requests, userId)[j].created
  {
    var own := Filter(requests, (q: ItemRequest) => q.requesterId == userId);
    SortDescMembers(own, CreatedOf);
    var r := OwnRequests(requests, userId);
    forall i, j | 0 <= i < j < |r| ensures r[i].created >= r[j].created {
      assert CreatedOf(r[i]) >= CreatedOf(r[j]);
    }
  }

  /** A page of everyone else's requests holds no request of the caller, is
      no longer than the page and is newest first. */
  lemma OthersRequestsExcludeCaller(requests: seq<ItemRequest>, userId: int, pr: PageRequest)
    ensures forall q :: q in OthersRequests(requests, userId, pr) ==> q in requests && q.requesterId != userId
    ensures |OthersRequests(requests, userId, pr)| <= pr.size
    ensures forall i, j :: 0 <= i < j < |OthersRequests(requests, userId, pr)|
              ==> OthersRequests(requests, userId, pr)[i].created >= OthersRequests(requests, userId, pr)[j].created
  {
    var others := Filter(requests, (q: ItemRequest) => q.requesterId != userId);
    var sorted := SortDesc(others, CreatedOf);
    SortDescMembers(others, CreatedOf);
    PageMembers(sorted, pr);
    PageOfSorted(sorted, CreatedOf, pr);
    var r := OthersRequests(requests, userId, pr);
    forall i, j | 0 <= i < j < |r| ensures r[i].created >= r[j].created {
      assert CreatedOf(r[i]) >= CreatedOf(r[j]);
    }
  }

  /** A request just added is among its requester's own requests and never
      among the others' requests the requester pages through. */
  lemma NewRequestIsOwn(requests: seq<ItemRequest>, saved: ItemRequest, pr: PageRequest)
    ensures saved in OwnRequests(requests + [saved], saved.requesterId)
    ensures saved !in OthersRequests(requests + [saved], saved.requesterId, pr)
  {
    assert saved in requests + [saved];
    OwnRequestsAreExactlyTheCallers(requests + [saved], saved.requesterId);
    OthersRequestsExcludeCaller(requests + [saved], saved.requesterId, pr);
  }

  /** `getUserRequests`: one view per own request, newest first. */
  method GetUserRequests(db: Db, userId: int) returns (r: Result<seq<ItemRequestDto>>)
    ensures r.Ok? <==> userId in db.users
    ensures r.Err? ==> r.error == UserNotFound(userId)
    ensures r.Ok? ==>
              var own := OwnRequests(db.requests, userId);
              |r.value| == |own| && forall i :: 0 <= i < |own| ==> r.value[i] == RequestView(own[i], db.items)
  {
    if userId !in db.users {
      return Err(UserNotFound(userId));
    }
    var own := OwnRequests(db.requests, userId);
    var result: seq<ItemRequestDto> := [];
    var i := 0;
    while i < |own|
      invariant 0 <= i <= |own|
      invariant |result| == i
      invariant forall j :: 0 <= j < i ==> result[j] == RequestView(own[j], db.items)
    {
      result := result + [ToItemRequestDto(own[i], GetAllResponsesByRequestId(db.items, own[i].id))];
      i := i + 1;
    }
    r := Ok(result);
  }

  /** `getAllRequests`: the page window of everyone else's requests, newest
      first, one view each. */
  method GetAllRequests(db: Db, userId: int, from: int, size: int) returns (r: Result<seq<ItemRequestDto>>)
    ensures r.Ok? <==> userId in db.users && CreatePageRequest(from, size).Ok?
    ensures userId !in db.users ==> r == Err(UserNotFound(userId))
    ensures userId in db.users && CreatePageRequest(from, size).Err? ==> r == Err(CreatePageRequest(from, size).error)
    ensures r.Ok? ==>
              var page := OthersRequests(db.requests, userId, CreatePageRequest(from, size).value);
              |r.value| == |page| && forall i :: 0 <= i < |page| ==> r.value[i] == RequestView(page[i], db.items)
  {
    if userId !in db.users {
      return Err(UserNotFound(userId));
    }
    var pr := CreatePageRequest(from, size);
    if pr.Err? {
      return Err(pr.error);
    }
    var page := OthersRequests(db.requests, userId, pr.value);
    var result: seq<ItemRequestDto> := [];
    var i := 0;
    while i < |page|
      invariant 0 <= i <= |page|
      invariant |result| == i
      invariant forall j :: 0 <= j < i ==> result[j] == RequestView(page[j], db.items)
    {
      result := result + [ToItemRequestDto(page[i], GetAllResponsesByRequestId(db.items, page[i].id))];
      i := i + 1;
    }
    r := Ok(result);
  }

  /** Three requests by someone else, paged by two: two on the first page
      (`from = 0`), one on the page that `from = 2` selects. */
  lemma ThreeRequestsInPagesOfTwo(requests: seq<ItemRequest>, userId: int)
    requires |requests| == 3 && forall q :: q in requests ==> q.requesterId != userId
    ensures |OthersRequests(requests, userId, CreatePageRequest(0, 2).value)| == 2
    ensures |OthersRequests(requests, userId, CreatePageRequest(2, 2).value)| == 1
  {
    FilterAll(requests, (q: ItemRequest) => q.requesterId != userId);
    ThreeResultsInPagesOfTwo(SortDesc(requests, CreatedOf));
  }

  /** `getRequestById`: the caller must exist and the request must be
      stored; it comes with the items that answer the requested id. */
  function GetRequestById(users: map<int, User>, requests: seq<ItemRequest>, items: seq<Item>,
                          userId: int, requestId: int): (r: Result<ItemRequestDto>)
    ensures r.Ok? <==> userId in users && At(requests, requestId).Some?
    ensures userId !in users ==> r == Err(UserNotFound(userId))
    ensures userId in users && At(requests, requestId).None? ==> r == Err(ItemRequestNotFound(requestId))
    ensures r.Ok? ==> var q := requests[requestId - 1];
                      r.value.id == q.id && r.value.description == q.description && r.value.created == q.created
    ensures r.Ok? ==> forall x :: x in r.value.items <==>
                        exists it :: it in items && it.request == Some(requestId)
                                     && x == ToItemInItemRequestDto(it, requestId)
  {
    if userId !in users then Err(UserNotFound(userId))
    else match At(requests, requestId)
      case None => Err(ItemRequestNotFound(requestId))
      case Some(q) => Ok(ToItemRequestDto(q, GetAllResponsesByRequestId(items, requestId)))
  }

  /** With generated ids, the single view is the view the listings build. */
  lemma RequestByIdAgreesWithListing(users: map<int, User>, requests: seq<ItemRequest>, items: seq<Item>,
                                     userId: int, q: ItemRequest)
    requires forall k :: 0 <= k < |requests| ==> requests[k].id == k + 1
    requires userId in users && q in requests
    ensures GetRequestById(users, requests, items, userId, q.id) == Ok(RequestView(q, items))
  {
    var k :| 0 <= k < |requests| && requests[k] == q;
    assert At(requests, q.id) == Some(q);
  }
}
