/** `UserStorage`, the in-memory user store of the first version: a hash map
    from id to user, an id counter, and the two e-mail checks that walk the
    stored users. `updateUser` applies its parameter entries one at a time, so
    an e-mail conflict met half-way leaves the earlier entries applied. */
module UserStore {
  import opened Common
  import opened Entities
  import opened Database

  /** One entry of the parameter map `updateUser` receives; the value is the
      entry's `toString()`. */
  datatype Entry = Entry(key: string, value: string)

  /** Some stored user whose own id is not `userId` has `email`. */
  predicate EmailUsedByOther(users: map<int, User>, email: string, userId: int)
  {
    exists id :: id in users && users[id].email == email && users[id].id != userId
  }

  /** When every user is stored under its own id, "another user by id field"
      and "another key" are the same test. */
  lemma UsedByOtherIsTakenByOther(users: map<int, User>, email: string, userId: int)
    requires forall id :: id in users ==> users[id].id == id
    ensures EmailUsedByOther(users, email, userId) <==> EmailTaken(users, email, Some(userId))
  {
  }

  /** The user table and the outcome after `updateUser` has walked the
      entries `es` in order: "email" is checked against the other users and
      then written, "name" is written, other keys are ignored; the first
      conflict stops the walk with what was written before it kept. */
  function ApplyEntries(users: map<int, User>, userId: int, es: seq<Entry>): (r: (map<int, User>, Outcome))
    requires userId in users
    ensures r.0.Keys == users.Keys
    ensures forall id :: id in users && id != userId ==> r.0[id] == users[id]
    ensures r.0[userId].id == users[userId].id
    ensures r.1.Fail? ==> exists k :: 0 <= k < |es| && es[k].key == "email" && r.1 == Fail(EmailAlreadyExists(es[k].value))
    decreases |es|
  {
    if es == [] then (users, Pass)
    else
      var rest :=
        if es[0].key == "email" then
          if EmailUsedByOther(users, es[0].value, userId) then (users, Fail(EmailAlreadyExists(es[0].value)))
          else ApplyEntries(users[userId := users[userId].(email := es[0].value)], userId, es[1..])
        else if es[0].key == "name" then ApplyEntries(users[userId := users[userId].(name := es[0].value)], userId, es[1..])
        else ApplyEntries(users, userId, es[1..]);
      assert forall k :: 1 <= k < |es| ==> es[k] == es[1..][k - 1];
      rest
  }

  /** Entries without an "email" key never fail. */
  lemma {:induction false} NameOnlyUpdateSucceeds(users: map<int, User>, userId: int, es: seq<Entry>)
    requires userId in users
    requires forall k :: 0 <= k < |es| ==> es[k].key != "email"
    ensures ApplyEntries(users, userId, es).1 == Pass
  {
    if es != [] {
      assert forall k :: 0 <= k < |es[1..]| ==> es[1..][k] == es[k + 1];
      if es[0].key == "name" {
        NameOnlyUpdateSucceeds(users[userId := users[userId].(name := es[0].value)], userId, es[1..]);
      } else {
        NameOnlyUpdateSucceeds(users, userId, es[1..]);
      }
    }
  }

  /** Walking the entries keeps e-mails unique, whether it finishes or stops
      at a conflict. */
  lemma {:induction false} ApplyEntriesKeepsEmailsUnique(users: map<int, User>, userId: int, es: seq<Entry>)
    requires userId in users && EmailsUnique(users)
    requires forall id :: id in users ==> users[id].id == id
    ensures EmailsUnique(ApplyEntries(users, userId, es).0)
  {
    if es != [] {
      if es[0].key == "email" {
        if !EmailUsedByOther(users, es[0].value, userId) {
          var next := users[userId := users[userId].(email := es[0].value)];
          assert forall b :: b in users && b != userId ==> users[b].email != es[0].value;
          assert EmailsUnique(next) by {
            forall a, b | a in next && b in next && next[a].email == next[b].email ensures a == b {
              if a != userId && b != userId {
                assert users[a].email == users[b].email;
              }
            }
          }
          ApplyEntriesKeepsEmailsUnique(next, userId, es[1..]);
        }
      } else if es[0].key == "name" {
        var next := users[userId := users[userId].(name := es[0].value)];
        assert EmailsUnique(next) by {
          forall a, b | a in next && b in next && next[a].email == next[b].email ensures a == b {
            assert users[a].email == users[b].email;
          }
        }
        ApplyEntriesKeepsEmailsUnique(next, userId, es[1..]);
      } else {
        ApplyEntriesKeepsEmailsUnique(users, userId, es[1..]);
      }
    }
  }

  /** A conflict met after a name entry leaves the new name written and the
      old e-mail in place. */
  lemma ConflictKeepsEarlierEntries()
    ensures var users := map[1 := User(1, "Anna", "anna@mail.ru"), 2 := User(2, "Boris", "boris@mail.ru")];
            var r := ApplyEntries(users, 1, [Entry("name", "Ann"), Entry("email", "boris@mail.ru")]);
            r.1 == Fail(EmailAlreadyExists("boris@mail.ru")) && r.0[1] == User(1, "Ann", "anna@mail.ru")
  {
    var users := map[1 := User(1, "Anna", "anna@mail.ru"), 2 := User(2, "Boris", "boris@mail.ru")];
    var es := [Entry("name", "Ann"), Entry("email", "boris@mail.ru")];
    var named := users[1 := User(1, "Ann", "anna@mail.ru")];
    assert es[1..] == [Entry("email", "boris@mail.ru")];
    assert named[2].email == "boris@mail.ru" && named[2].id != 1;
    assert ApplyEntries(named, 1, es[1..]) == (named, Fail(EmailAlreadyExists("boris@mail.ru")));
  }

  class UserStorage {
    var newId: int
    var users: map<int, User>

    /** Every user is stored under its own id, and every id handed out so far
        is below the counter. */
    ghost predicate Valid()
      reads this
    {
      1 <= newId && forall id :: id in users ==> users[id].id == id && 1 <= id < newId
    }

    constructor ()
      ensures Valid()
      ensures users == map[] && newId == 1
    {
      newId := 1;
      users := map[];
    }

    /** `addUser`: the user gets the next id and is stored under it. */
    method AddUser(name: string, email: string) returns (r: User)
      requires Valid()
      modifies this
      ensures Valid()
      ensures r == User(old(newId), name, email) && r.id !in old(users)
      ensures users == old(users)[r.id := r] && newId == old(newId) + 1
    {
      r := User(newId, name, email);
      newId := newId + 1;
      users := users[r.id := r];
    }

    /** `getAllUsers`: every stored user; the map decides the order. */
    function GetAllUsers(): (r: set<User>)
      reads this
      ensures forall u :: u in r <==> exists id :: id in users && users[id] == u
    {
      set id | id in users :: users[id]
    }

    /** `getUserById`: the stored user, or nothing (`null`). */
    function GetUserById(userId: int): (r: Option<User>)
      reads this
      ensures r.Some? <==> userId in users
      ensures r.Some? ==> r.value == users[userId]
    {
      if userId in users then Some(users[userId]) else None
    }

    /** `emailCheck`: fails exactly when some stored user has the e-mail. */
    method EmailCheck(email: string) returns (r: Outcome)
      ensures r == Pass <==> !EmailTaken(users, email, None)
      ensures r.Fail? ==> r.error == EmailAlreadyExists(email)
    {
      var todo := users.Keys;
      while todo != {}
        invariant todo <= users.Keys
        invariant forall id :: id in users && id !in todo ==> users[id].email != email
        decreases |todo|
      {
        NonEmptyHasMember(todo);
        var id :| id in todo;
        if users[id].email == email {
          return Fail(EmailAlreadyExists(email));
        }
        todo := todo - {id};
      }
      r := Pass;
    }

    /** `emailForUpdateCheck`: fails exactly when a user other than `userId`
        has the e-mail. */
    method EmailForUpdateCheck(email: string, userId: int) returns (r: Outcome)
      ensures r == Pass <==> !EmailUsedByOther(users, email, userId)
      ensures r.Fail? ==> r.error == EmailAlreadyExists(email)
    {
      var todo := users.Keys;
      while todo != {}
        invariant todo <= users.Keys
        invariant forall id :: id in users && id !in todo ==> !(users[id].email == email && users[id].id != userId)
        decreases |todo|
      {
        NonEmptyHasMember(todo);
        var id :| id in todo;
        if users[id].email == email && users[id].id != userId {
          return Fail(EmailAlreadyExists(email));
        }
        todo := todo - {id};
      }
      r := Pass;
    }

    /** `updateUser`: the entries are applied in order, as `ApplyEntries`
        describes; the caller checks that the user exists. */
    method UpdateUser(userId: int, es: seq<Entry>) returns (r: Result<User>)
      requires Valid() && userId in users
      modifies this
      ensures Valid()
      ensures newId == old(newId)
      ensures users == ApplyEntries(old(users), userId, es).0
      ensures ApplyEntries(old(users), userId, es).1 == Pass ==> r == Ok(users[userId])
      ensures ApplyEntries(old(users), userId, es).1.Fail? ==> r == Err(ApplyEntries(old(users), userId, es).1.error)
    {
      var i := 0;
      while i < |es|
        invariant 0 <= i <= |es|
        invariant Valid() && userId in users && newId == old(newId)
        invariant ApplyEntries(old(users), userId, es) == ApplyEntries(users, userId, es[i..])
      {
        assert es[i..][0] == es[i] && es[i..][1..] == es[i + 1..];
        if es[i].key == "email" {
          var check := EmailForUpdateCheck(es[i].value, userId);
          if check.Fail? {
            return Err(check.error);
          }
          users := users[userId := users[userId].(email := es[i].value)];
        } else if es[i].key == "name" {
          users := users[userId := users[userId].(name := es[i].value)];
        }
        i := i + 1;
      }
      r := Ok(users[userId]);
    }

    /** `deleteUser`: the entry, if any, is removed. */
    method DeleteUser(userId: int)
      requires Valid()
      modifies this
      ensures Valid()
      ensures users == old(users) - {userId} && newId == old(newId)
      ensures EmailsUnique(old(users)) ==> EmailsUnique(users)
    {
      users := users - {userId};
    }

    /** `userExistenceCheck`. */
    function UserExistenceCheck(userId: int): (r: Outcome)
      reads this
      ensures r == Pass <==> userId in users
      ensures r.Fail? ==> r.error == UserNotFound(userId)
    {
      if userId in users then Pass else Fail(UserNotFound(userId))
    }
  }
}
