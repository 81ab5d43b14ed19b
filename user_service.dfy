/** The JPA-era `UserService`: the user table with its unique-email
    constraint. A save that would break the constraint is refused with
    `EmailAlreadyExists` and, the transaction being rolled back, changes
    nothing; deleting an absent user is refused with `UserNotFound`. */
module UserService {
  import opened Common
  import opened Entities
  import opened Database

  /** `UserUpdateDto`: each field is either present or absent. */
  datatype UserUpdate = UserUpdate(email: Option<string>, name: Option<string>)

  /** The user with the present fields of `c` written over it. */
  function ApplyUserUpdate(u: User, c: UserUpdate): (r: User)
    ensures r.id == u.id
    ensures c.email.None? ==> r.email == u.email
    ensures c.email.Some? ==> r.email == c.email.value
    ensures c.name.None? ==> r.name == u.name
    ensures c.name.Some? ==> r.name == c.name.value
  {
    var u1 := if c.email.Some? then u.(email := c.email.value) else u;
    if c.name.Some? then u1.(name := c.name.value) else u1
  }

  /** An update with no field present leaves the user as it was. */
  lemma EmptyUserUpdateChangesNothing(u: User)
    ensures ApplyUserUpdate(u, UserUpdate(None, None)) == u
  {
  }

  /** Applying the same update twice is applying it once. */
  lemma UserUpdateIsIdempotent(u: User, c: UserUpdate)
    ensures ApplyUserUpdate(ApplyUserUpdate(u, c), c) == ApplyUserUpdate(u, c)
  {
  }

  /** `addUser`: a fresh id and the user stored under it, unless another user
      has the email. */
  method AddUser(db: Db, name: string, email: string) returns (r: Result<User>)
    requires db.Valid()
    modifies db`users, db`nextUserId
    ensures db.Valid()
    ensures r.Ok? <==> !EmailTaken(old(db.users), email, None)
    ensures r.Err? ==> r.error == EmailAlreadyExists(email)
                       && db.users == old(db.users) && db.nextUserId == old(db.nextUserId)
    ensures r.Ok? ==> r.value == User(old(db.nextUserId), name, email) && r.value.id !in old(db.users)
                      && db.users == old(db.users)[r.value.id := r.value]
                      && db.nextUserId == old(db.nextUserId) + 1
  {
    if EmailTaken(db.users, email, None) {
      return Err(EmailAlreadyExists(email));
    }
    var saved := User(db.nextUserId, name, email);
    db.users := db.users[saved.id := saved];
    db.nextUserId := db.nextUserId + 1;
    r := Ok(saved);
  }

  /** `getUserById`: the stored user, unchanged, or `UserNotFound`. */
  function GetUserById(users: map<int, User>, userId: int): (r: Result<User>)
    ensures r.Ok? <==> userId in users
    ensures r.Ok? ==> r.value == users[userId]
    ensures r.Err? ==> r.error == UserNotFound(userId)
  {
    if userId in users then Ok(users[userId]) else Err(UserNotFound(userId))
  }

  /** `getAllUsers`: every stored user, each once; the order is left to the
      database. */
  function GetAllUsers(users: map<int, User>): (r: set<User>)
    ensures forall u :: u in r <==> exists id :: id in users && users[id] == u
  {
    set id | id in users :: users[id]
  }

  /** `updateUser`: the stored user with the present fields written over it,
      unless another user has the resulting email. */
  method UpdateUser(db: Db, userId: int, c: UserUpdate) returns (r: Result<User>)
    requires db.Valid()
    modifies db`users
    ensures db.Valid()
    ensures r.Ok? <==> userId in old(db.users)
                       && !EmailTaken(old(db.users), ApplyUserUpdate(old(db.users)[userId], c).email, Some(userId))
    ensures userId !in old(db.users) ==> r == Err(UserNotFound(userId))
    ensures userId in old(db.users)
            && EmailTaken(old(db.users), ApplyUserUpdate(old(db.users)[userId], c).email, Some(userId))
            ==> r == Err(EmailAlreadyExists(ApplyUserUpdate(old(db.users)[userId], c).email))
    ensures r.Err? ==> db.users == old(db.users)
    ensures r.Ok? ==> r.value == ApplyUserUpdate(old(db.users)[userId], c)
                      && db.users == old(db.users)[userId := r.value]
  {
    if userId !in db.users {
      return Err(UserNotFound(userId));
    }
    var user := db.users[userId];
    if c.email.Some? {
      user := user.(email := c.email.value);
    }
    if c.name.Some? {
      user := user.(name := c.name.value);
    }
    if EmailTaken(db.users, user.email, Some(userId)) {
      return Err(EmailAlreadyExists(user.email));
    }
    db.users := db.users[userId := user];
    r := Ok(user);
  }

  /** An update that keeps the email (absent, or the user's own) is never
      refused for the email. */
  lemma KeepingTheEmailNeverConflicts(users: map<int, User>, userId: int, c: UserUpdate)
    requires EmailsUnique(users) && userId in users
    requires c.email.None? || c.email.value == users[userId].email
    ensures !EmailTaken(users, ApplyUserUpdate(users[userId], c).email, Some(userId))
  {
  }

  /** `deleteUser`: the user's row is removed, or `UserNotFound`. */
  method DeleteUser(db: Db, userId: int) returns (r: Outcome)
    requires db.Valid()
    modifies db`users
    ensures db.Valid()
    ensures r == Pass <==> userId in old(db.users)
    ensures r.Fail? ==> r.error == UserNotFound(userId) && db.users == old(db.users)
    ensures r == Pass ==> db.users == old(db.users) - {userId}
  {
    if userId !in db.users {
      return Fail(UserNotFound(userId));
    }
    db.users := db.users - {userId};
    r := Pass;
  }

  /** A deleted user is no longer found, and the others still are. */
  lemma DeletedUserIsGone(users: map<int, User>, userId: int, other: int)
    requires other != userId
    ensures GetUserById(users - {userId}, userId) == Err(UserNotFound(userId))
    ensures GetUserById(users - {userId}, other) == GetUserById(users, other)
  {
  }
}
