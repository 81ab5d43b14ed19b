/** `ItemStorage`, the in-memory item store of the first version: a hash map
    from id to item and a counter that hands out ids 1, 2, 3, ... The two
    listings walk the map's values in whatever order the map yields them;
    here that order is an arbitrary choice of the next key. */
module ItemStore {
  import opened Common
  import opened Entities
  import opened ItemMapper
  import ItemService
  import ItemRepository

  /** The in-memory search test: it lowers the item's name and description
      but not the text, which the caller lowers. */
  predicate StorageMatches(it: Item, text: string)
  {
    (Contains(Lower(it.name), text) || Contains(Lower(it.description), text)) && it.available
  }

  /** The in-memory search on the lowered text is the repository's
      case-insensitive search. */
  lemma LoweredSearchIsRepositorySearch(it: Item, text: string)
    ensures StorageMatches(it, Lower(text)) <==> ItemRepository.Searchable(it, text)
  {
  }

  class ItemStorage {
    var newId: int
    var items: map<int, Item>

    /** Every item is stored under its own id, and every id handed out so far
        is below the counter. */
    ghost predicate Valid()
      reads this
    {
      1 <= newId && forall id :: id in items ==> items[id].id == id && 1 <= id < newId
    }

    constructor ()
      ensures Valid()
      ensures items == map[] && newId == 1
    {
      newId := 1;
      items := map[];
    }

    /** The ids of `ids` whose item belongs to `userId`. */
    ghost function OwnedAmong(ids: set<int>, userId: int): set<int>
      reads this
    {
      set id | id in ids && id in items && items[id].ownerId == userId
    }

    /** The ids of `ids` whose item passes the in-memory search for `text`. */
    ghost function FoundAmong(ids: set<int>, text: string): set<int>
      reads this
    {
      set id | id in ids && id in items && StorageMatches(items[id], text)
    }

    /** `addItem`: the item is stored under the next id, owned by `userId` and
        answering no request; no other entry changes. */
    method AddItem(name: string, description: string, available: bool, userId: int) returns (r: ItemDto)
      requires Valid()
      modifies this
      ensures Valid()
      ensures forall id :: id in old(items) ==> id < r.id
      ensures newId == old(newId) + 1
      ensures var item := Item(old(newId), name, description, available, userId, None);
              items == old(items)[item.id := item] && r == ToItemDto(item)
    {
      var item := Item(newId, name, description, available, userId, None);
      newId := newId + 1;
      items := items[item.id := item];
      r := ToItemDto(item);
    }

    /** `getAllUserItems`: one entry per item of `userId`, and nothing else. */
    method GetAllUserItems(userId: int) returns (r: seq<ItemDto>)
      requires Valid()
      ensures forall d :: d in r <==> exists id :: id in items && items[id].ownerId == userId && d == ToItemDto(items[id])
      ensures |r| == |OwnedAmong(items.Keys, userId)|
    {
      r := [];
      var todo := items.Keys;
      ghost var done: set<int> := {};
      while todo != {}
        invariant todo !! done && todo + done == items.Keys
        invariant forall d :: d in r <==> exists id :: id in done && items[id].ownerId == userId && d == ToItemDto(items[id])
        invariant |r| == |OwnedAmong(done, userId)|
        decreases |todo|
      {
        NonEmptyHasMember(todo);
        var id :| id in todo;
        if items[id].ownerId == userId {
          assert OwnedAmong(done + {id}, userId) == OwnedAmong(done, userId) + {id};
          r := r + [ToItemDto(items[id])];
        } else {
          assert OwnedAmong(done + {id}, userId) == OwnedAmong(done, userId);
        }
        todo := todo - {id};
        done := done + {id};
      }
    }

    /** `getItemById`; the caller checks existence first, since an absent id
        makes the mapper fail. */
    function GetItemById(itemId: int): (r: ItemDto)
      reads this
      requires itemId in items
      ensures r == ToItemDto(items[itemId])
      ensures Valid() ==> r.id == itemId
    {
      ToItemDto(items[itemId])
    }

    /** `updateItem`: the present fields of `u` are written into that item;
        nothing else changes. */
    method UpdateItem(itemId: int, u: ItemService.ItemUpdate) returns (r: ItemDto)
      requires Valid() && itemId in items
      modifies this
      ensures Valid()
      ensures newId == old(newId)
      ensures items == old(items)[itemId := ItemService.ApplyItemUpdate(old(items)[itemId], u)]
      ensures r == ToItemDto(items[itemId])
    {
      if u.name.Some? {
        items := items[itemId := items[itemId].(name := u.name.value)];
      }
      if u.description.Some? {
        items := items[itemId := items[itemId].(description := u.description.value)];
      }
      if u.available.Some? {
        items := items[itemId := items[itemId].(available := u.available.value)];
      }
      r := ToItemDto(items[itemId]);
    }

    /** `searchItem`: one entry per available item whose lowered name or
        description contains `text`, and nothing else. */
    method SearchItem(text: string) returns (r: seq<ItemDto>)
      requires Valid()
      ensures forall d :: d in r <==> exists id :: id in items && StorageMatches(items[id], text) && d == ToItemDto(items[id])
      ensures |r| == |FoundAmong(items.Keys, text)|
      ensures forall d :: d in r ==> d.available
    {
      r := [];
      var todo := items.Keys;
      ghost var done: set<int> := {};
      while todo != {}
        invariant todo !! done && todo + done == items.Keys
        invariant forall d :: d in r <==> exists id :: id in done && StorageMatches(items[id], text) && d == ToItemDto(items[id])
        invariant |r| == |FoundAmong(done, text)|
        decreases |todo|
      {
        NonEmptyHasMember(todo);
        var id :| id in todo;
        if StorageMatches(items[id], text) {
          assert FoundAmong(done + {id}, text) == FoundAmong(done, text) + {id};
          r := r + [ToItemDto(items[id])];
        } else {
          assert FoundAmong(done + {id}, text) == FoundAmong(done, text);
        }
        todo := todo - {id};
        done := done + {id};
      }
    }

    /** `itemExistenceCheck`. */
    function ItemExistenceCheck(itemId: int): (r: Outcome)
      reads this
      ensures r == Pass <==> itemId in items
      ensures r.Fail? ==> r.error == ItemNotFound(itemId)
    {
      if itemId in items then Pass else Fail(ItemNotFound(itemId))
    }

    /** `accessCheck`; the caller checks existence first. */
    function AccessCheck(userId: int, itemId: int): (r: Outcome)
      reads this
      requires itemId in items
      ensures r == Pass <==> items[itemId].ownerId == userId
      ensures r.Fail? ==> r.error == AccessDenied
    {
      if items[itemId].ownerId != userId then Fail(AccessDenied) else Pass
    }
  }
}
