/** The server's `ItemRepository` queries as filters over the item table:
    the owner's items, the available-only case-insensitive text search, and the
    items that answer one item request. Result order is table order. */
module ItemRepository {
  import opened Common
  import opened Entities
  import opened Seqs
  import opened Paging
  import opened ItemMapper

  /** `ItemInItemRequestDto(it.id, it.name, it.description, it.owner.id, it.available, it.request.id)`. */
  datatype ItemInItemRequestDto = ItemInItemRequestDto(id: int, name: string, description: string, ownerId: int,
                                                       available: bool, requestId: int)

  /** `findItemsByOwnerId`: the page `pr` of the owner's items. */
  function FindItemsByOwnerId(items: seq<Item>, ownerId: int, pr: PageRequest): (r: seq<ItemDto>)
    ensures |r| <= pr.size
    ensures forall d :: d in r ==> exists it :: it in items && it.ownerId == ownerId && d == ToItemDto(it)
  {
    var owned := Filter(items, (it: Item) => it.ownerId == ownerId);
    var page := Page(owned, pr);
    PageMembers(owned, pr);
    var r := MapSeq(page, ToItemDto);
    assert forall k :: 0 <= k < |r| ==> page[k] in page && r[k] == ToItemDto(page[k]);
    r
  }

  /** `lower(x) like lower(concat('%', text, '%'))` on the name or the description. */
  predicate TextMatches(it: Item, text: string)
  {
    Contains(Lower(it.name), Lower(text)) || Contains(Lower(it.description), Lower(text))
  }

  predicate Searchable(it: Item, text: string)
  {
    TextMatches(it, text) && it.available
  }

  /** `searchItemsByText`: the page `pr` of the available items whose name or
      description contains the text, ignoring case. */
  function SearchItemsByText(items: seq<Item>, text: string, pr: PageRequest): (r: seq<ItemDto>)
    ensures |r| <= pr.size
    ensures forall d :: d in r ==> d.available
    ensures forall d :: d in r ==> exists it :: it in items && Searchable(it, text) && d == ToItemDto(it)
  {
    var found := Filter(items, (it: Item) => Searchable(it, text));
    var page := Page(found, pr);
    PageMembers(found, pr);
    var r := MapSeq(page, ToItemDto);
    assert forall k :: 0 <= k < |r| ==> page[k] in page && r[k] == ToItemDto(page[k]);
    r
  }

  /** The search ignores the case of the text: texts equal after lowering
      find the same items. */
  lemma {:induction false} SearchIgnoresCase(items: seq<Item>, text: string, text': string, pr: PageRequest)
    requires Lower(text) == Lower(text')
    ensures SearchItemsByText(items, text, pr) == SearchItemsByText(items, text', pr)
  {
    FilterCongruent(items, (it: Item) => Searchable(it, text), (it: Item) => Searchable(it, text'));
  }

  /** A first page at least as long as the table misses no matching item. */
  lemma SearchFirstPageIsComplete(items: seq<Item>, text: string, size: nat, it: Item)
    requires size >= |items| && it in items && Searchable(it, text)
    ensures ToItemDto(it) in SearchItemsByText(items, text, PageRequest(0, size))
  {
    var found := Filter(items, (x: Item) => Searchable(x, text));
    assert |found| <= |items|;
    assert Page(found, PageRequest(0, size)) == found;
    var k :| 0 <= k < |found| && found[k] == it;
    assert SearchItemsByText(items, text, PageRequest(0, size))[k] == ToItemDto(it);
  }

  /** The projection of an item that answers request `requestId` (so that
      `it.request.id` is `requestId`). */
  function ToItemInItemRequestDto(it: Item, requestId: int): ItemInItemRequestDto
  {
    ItemInItemRequestDto(it.id, it.name, it.description, it.ownerId, it.available, requestId)
  }

  /** `getAllResponsesByRequestId`: every item that answers the request, and
      nothing else. */
  function GetAllResponsesByRequestId(items: seq<Item>, requestId: int): (r: seq<ItemInItemRequestDto>)
    ensures forall x :: x in r ==> x.requestId == requestId
    ensures forall x :: x in r <==> exists it :: it in items && it.request == Some(requestId) && x == ToItemInItemRequestDto(it, requestId)
  {
    var answers := Filter(items, (it: Item) => it.request == Some(requestId));
    var r := MapSeq(answers, (it: Item) => ToItemInItemRequestDto(it, requestId));
    forall x ensures x in r <==> exists it :: it in items && it.request == Some(requestId) && x == ToItemInItemRequestDto(it, requestId) {
      if x in r {
        var k :| 0 <= k < |r| && r[k] == x;
        assert answers[k] in answers;
      }
      if exists it :: it in items && it.request == Some(requestId) && x == ToItemInItemRequestDto(it, requestId) {
        var it :| it in items && it.request == Some(requestId) && x == ToItemInItemRequestDto(it, requestId);
        var k :| 0 <= k < |answers| && answers[k] == it;
        assert r[k] == x;
      }
    }
    r
  }
}
