/** The JPA-era persistent state: one table per entity. Users can be deleted,
    so they are a map from id to row; items, bookings, requests and comments
    are only ever appended to or updated in place, so each is a sequence whose
    element i carries the generated id i + 1. */
module Database {
  import opened Common
  import opened Entities

  /** The row of an append-only table with generated id `id`, if it exists. */
  function At<T>(table: seq<T>, id: int): (r: Option<T>)
    ensures r.Some? <==> 1 <= id <= |table|
    ensures r.Some? ==> r.value == table[id - 1]
  {
    if 1 <= id <= |table| then Some(table[id - 1]) else None
  }

  ghost predicate IdsArePositions(items: seq<Item>, bookings: seq<Booking>,
                                  requests: seq<ItemRequest>, comments: seq<Comment>)
  {
    (forall i :: 0 <= i < |items| ==> items[i].id == i + 1)
    && (forall i :: 0 <= i < |bookings| ==> bookings[i].id == i + 1)
    && (forall i :: 0 <= i < |requests| ==> requests[i].id == i + 1)
    && (forall i :: 0 <= i < |comments| ==> comments[i].id == i + 1)
  }

  /** The `unique` constraint on `users.email`. */
  ghost predicate EmailsUnique(users: map<int, User>)
  {
    forall a, b :: a in users && b in users && users[a].email == users[b].email ==> a == b
  }

  /** Some stored user other than `except` already has `email`. */
  predicate EmailTaken(users: map<int, User>, email: string, except: Option<int>)
  {
    exists id :: id in users && users[id].email == email && Some(id) != except
  }

  class Db {
    var users: map<int, User>
    var nextUserId: int
    var items: seq<Item>
    var bookings: seq<Booking>
    var requests: seq<ItemRequest>
    var comments: seq<Comment>

    ghost predicate Valid()
      reads this
    {
      1 <= nextUserId
      && (forall id :: id in users ==> users[id].id == id && 1 <= id < nextUserId)
      && EmailsUnique(users)
      && IdsArePositions(items, bookings, requests, comments)
    }

    constructor ()
      ensures Valid()
      ensures users == map[] && nextUserId == 1
      ensures items == [] && bookings == [] && requests == [] && comments == []
    {
      users := map[];
      nextUserId := 1;
      items := [];
      bookings := [];
      requests := [];
      comments := [];
    }
  }
}
