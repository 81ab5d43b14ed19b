/** The first version's `ItemServiceImpl` over `ItemStorage` and
    `UserStorage`: the input and access checks in front of the item store. A
    missing (`null`) argument or field is `None`. */
module MemoryItemService {
  import opened Common
  import opened Entities
  import opened ItemMapper
  import opened ItemStore
  import opened UserStore
  import ItemService
  import ItemRepository

  /** The guards of `addItem`, in their order: all three fields given, name
      and description not blank, a user id given, the user stored. */
  function AddItemCheck(users: map<int, User>, name: Option<string>, description: Option<string>,
                        available: Option<bool>, userId: Option<int>): (r: Outcome)
    ensures r == Pass <==> name.Some? && description.Some? && available.Some?
                           && !IsBlank(name.value) && !IsBlank(description.value)
                           && userId.Some? && userId.value in users
    ensures description.None? || name.None? || available.None? ==> r == Fail(LackOfInformation)
    ensures description.Some? && name.Some? && available.Some? && (IsBlank(description.value) || IsBlank(name.value))
            ==> r == Fail(LackOfInformation)
    ensures description.Some? && name.Some? && available.Some? && !IsBlank(description.value) && !IsBlank(name.value)
            && userId.None?
            ==> r == Fail(LackOfInformation)
    ensures description.Some? && name.Some? && available.Some? && !IsBlank(description.value) && !IsBlank(name.value)
            && userId.Some? && userId.value !in users
            ==> r == Fail(UserNotFound(userId.value))
  {
    if description.None? || name.None? || available.None? then Fail(LackOfInformation)
    else if IsBlank(description.value) || IsBlank(name.value) then Fail(LackOfInformation)
    else if userId.None? then Fail(LackOfInformation)
    else if userId.value !in users then Fail(UserNotFound(userId.value))
    else Pass
  }

  /** `addItem`: the checks, then the store's `addItem`; a refused item
      leaves the store as it was. */
  method AddItem(items: ItemStorage, users: UserStorage, name: Option<string>, description: Option<string>,
                 available: Option<bool>, userId: Option<int>) returns (r: Result<ItemDto>)
    requires items.Valid()
    modifies items
    ensures items.Valid()
    ensures r.Ok? <==> AddItemCheck(users.users, name, description, available, userId) == Pass
    ensures r.Err? ==> AddItemCheck(users.users, name, description, available, userId) == Fail(r.error)
                       && items.items == old(items.items) && items.newId == old(items.newId)
    ensures r.Ok? ==>
              var item := Item(old(items.newId), name.value, description.value, available.value, userId.value, None);
              items.items == old(items.items)[item.id := item] && r.value == ToItemDto(item)
              && items.newId == old(items.newId) + 1
  {
    if description.None? || name.None? || available.None? {
      return Err(LackOfInformation);
    }
    if IsBlank(description.value) || IsBlank(name.value) {
      return Err(LackOfInformation);
    }
    if userId.None? {
      return Err(LackOfInformation);
    }
    var known := users.UserExistenceCheck(userId.value);
    if known.Fail? {
      return Err(known.error);
    }
    var saved := items.AddItem(name.value, description.value, available.value, userId.value);
    r := Ok(saved);
  }

  /** `getAllUserItems`: a user id given and stored, then exactly that
      user's items. */
  method GetAllUserItems(items: ItemStorage, users: UserStorage, userId: Option<int>)
    returns (r: Result<seq<ItemDto>>)
    requires items.Valid()
    ensures r.Ok? <==> userId.Some? && userId.value in users.users
    ensures userId.None? ==> r == Err(LackOfInformation)
    ensures userId.Some? && userId.value !in users.users ==> r == Err(UserNotFound(userId.value))
    ensures r.Ok? ==> forall d :: d in r.value <==>
              exists id :: id in items.items && items.items[id].ownerId == userId.value && d == ToItemDto(items.items[id])
  {
    if userId.None? {
      return Err(LackOfInformation);
    }
    var known := users.UserExistenceCheck(userId.value);
    if known.Fail? {
      return Err(known.error);
    }
    var found := items.GetAllUserItems(userId.value);
    r := Ok(found);
  }

  /** `getItemById`: the stored item, or `ItemNotFound`. */
  function GetItemById(items: ItemStorage, itemId: int): (r: Result<ItemDto>)
    reads items
    ensures r.Ok? <==> itemId in items.items
    ensures r.Ok? ==> r.value == ToItemDto(items.items[itemId])
    ensures r.Err? ==> r.error == ItemNotFound(itemId)
  {
    match items.ItemExistenceCheck(itemId)
    case Fail(e) => Err(e)
    case Pass => Ok(items.GetItemById(itemId))
  }

  /** The guards of `updateItem`, in their order: a user id given, the user
      stored, the item stored, the user its owner. */
  function UpdateItemCheck(users: map<int, User>, items: map<int, Item>, userId: Option<int>, itemId: int): (r: Outcome)
    ensures r == Pass <==> userId.Some? && userId.value in users && itemId in items
                           && items[itemId].ownerId == userId.value
    ensures userId.None? ==> r == Fail(LackOfInformation)
    ensures userId.Some? && userId.value !in users ==> r == Fail(UserNotFound(userId.value))
    ensures userId.Some? && userId.value in users && itemId !in items ==> r == Fail(ItemNotFound(itemId))
    ensures userId.Some? && userId.value in users && itemId in items && items[itemId].ownerId != userId.value
            ==> r == Fail(AccessDenied)
  {
    if userId.None? then Fail(LackOfInformation)
    else if userId.value !in users then Fail(UserNotFound(userId.value))
    else if itemId !in items then Fail(ItemNotFound(itemId))
    else if items[itemId].ownerId != userId.value then Fail(AccessDenied)
    else Pass
  }

  /** `updateItem`: the checks, then the store's `updateItem`; only the
      owner's item changes, and only in the present fields. */
  method UpdateItem(items: ItemStorage, users: UserStorage, userId: Option<int>, itemId: int,
                    u: ItemService.ItemUpdate) returns (r: Result<ItemDto>)
    requires items.Valid()
    modifies items
    ensures items.Valid()
    ensures items.newId == old(items.newId)
    ensures r.Ok? <==> UpdateItemCheck(users.users, old(items.items), userId, itemId) == Pass
    ensures r.Err? ==> UpdateItemCheck(users.users, old(items.items), userId, itemId) == Fail(r.error)
                       && items.items == old(items.items)
    ensures r.Ok? ==> items.items == old(items.items)[itemId := ItemService.ApplyItemUpdate(old(items.items)[itemId], u)]
                      && r.value == ToItemDto(items.items[itemId])
  {
    if userId.None? {
      return Err(LackOfInformation);
    }
    var user := users.UserExistenceCheck(userId.value);
    if user.Fail? {
      return Err(user.error);
    }
    var item := items.ItemExistenceCheck(itemId);
    if item.Fail? {
      return Err(item.error);
    }
    var access := items.AccessCheck(userId.value, itemId);
    if access.Fail? {
      return Err(access.error);
    }
    var updated := items.UpdateItem(itemId, u);
    r := Ok(updated);
  }

  /** `searchItem`: a blank text finds nothing; otherwise exactly the
      available items whose name or description contains the text, ignoring
      case, the same test the repository search applies. */
  method SearchItem(items: ItemStorage, text: string) returns (r: seq<ItemDto>)
    requires items.Valid()
    ensures IsBlank(text) ==> r == []
    ensures !IsBlank(text) ==> forall d :: d in r <==>
              exists id :: id in items.items && ItemRepository.Searchable(items.items[id], text)
                           && d == ToItemDto(items.items[id])
  {
    if IsBlank(text) {
      return [];
    }
    r := items.SearchItem(Lower(text));
    forall id | id in items.items {
      LoweredSearchIsRepositorySearch(items.items[id], text);
    }
  }
}
