/** The first version's `UserService` over `UserStorage`: the input checks in
    front of the store. A missing (`null`) field is `None`. */
module MemoryUserService {
  import opened Common
  import opened Entities
  import opened Database
  import opened UserStore

  /** The guards of `addUser`, in their order: both fields given, neither
      blank, the e-mail not yet used. */
  function AddUserCheck(users: map<int, User>, name: Option<string>, email: Option<string>): (r: Outcome)
    ensures r == Pass <==> name.Some? && email.Some? && !IsBlank(name.value) && !IsBlank(email.value)
                           && !EmailTaken(users, email.value, None)
    ensures name.None? || email.None? ==> r == Fail(LackOfInformation)
    ensures name.Some? && email.Some? && (IsBlank(name.value) || IsBlank(email.value)) ==> r == Fail(LackOfInformation)
    ensures name.Some? && email.Some? && !IsBlank(name.value) && !IsBlank(email.value)
            && EmailTaken(users, email.value, None)
            ==> r == Fail(EmailAlreadyExists(email.value))
  {
    if email.None? || name.None? then Fail(LackOfInformation)
    else if IsBlank(email.value) || IsBlank(name.value) then Fail(LackOfInformation)
    else if EmailTaken(users, email.value, None) then Fail(EmailAlreadyExists(email.value))
    else Pass
  }

  /** `addUser`: the checks, then the store's `addUser`; a refused user
      leaves the store as it was, and e-mails stay unique. */
  method AddUser(s: UserStorage, name: Option<string>, email: Option<string>) returns (r: Result<User>)
    requires s.Valid()
    modifies s
    ensures s.Valid()
    ensures r.Ok? <==> AddUserCheck(old(s.users), name, email) == Pass
    ensures r.Err? ==> AddUserCheck(old(s.users), name, email) == Fail(r.error)
                       && s.users == old(s.users) && s.newId == old(s.newId)
    ensures r.Ok? ==> r.value == User(old(s.newId), name.value, email.value)
                      && s.users == old(s.users)[r.value.id := r.value] && s.newId == old(s.newId) + 1
    ensures EmailsUnique(old(s.users)) ==> EmailsUnique(s.users)
  {
    if email.None? || name.None? {
      return Err(LackOfInformation);
    }
    if IsBlank(email.value) || IsBlank(name.value) {
      return Err(LackOfInformation);
    }
    var check := s.EmailCheck(email.value);
    if check.Fail? {
      return Err(check.error);
    }
    var saved := s.AddUser(name.value, email.value);
    r := Ok(saved);
  }

  /** `getUserById`: the stored user, or `UserNotFound`. */
  function GetUserById(s: UserStorage, userId: int): (r: Result<User>)
    reads s
    ensures r.Ok? <==> userId in s.users
    ensures r.Ok? ==> r.value == s.users[userId]
    ensures r.Err? ==> r.error == UserNotFound(userId)
  {
    match s.UserExistenceCheck(userId)
    case Fail(e) => Err(e)
    case Pass => Ok(s.GetUserById(userId).value)
  }

  /** `updateUser`: an unknown user is refused with nothing changed;
      otherwise the store walks the entries, and e-mails stay unique. */
  method UpdateUser(s: UserStorage, userId: int, es: seq<Entry>) returns (r: Result<User>)
    requires s.Valid()
    modifies s
    ensures s.Valid()
    ensures userId !in old(s.users) ==> r == Err(UserNotFound(userId)) && s.users == old(s.users)
    ensures userId in old(s.users) ==>
              s.users == ApplyEntries(old(s.users), userId, es).0
              && (ApplyEntries(old(s.users), userId, es).1 == Pass ==> r == Ok(s.users[userId]))
              && (ApplyEntries(old(s.users), userId, es).1.Fail? ==> r == Err(ApplyEntries(old(s.users), userId, es).1.error))
    ensures EmailsUnique(old(s.users)) ==> EmailsUnique(s.users)
    ensures s.newId == old(s.newId)
  {
    if s.UserExistenceCheck(userId).Fail? {
      return Err(UserNotFound(userId));
    }
    if EmailsUnique(s.users) {
      ApplyEntriesKeepsEmailsUnique(s.users, userId, es);
    }
    r := s.UpdateUser(userId, es);
  }

  /** `deleteUser`: an unknown user is refused; otherwise the entry goes,
      and e-mails stay unique. */
  method DeleteUser(s: UserStorage, userId: int) returns (r: Outcome)
    requires s.Valid()
    modifies s
    ensures s.Valid()
    ensures r == Pass <==> userId in old(s.users)
    ensures r.Fail? ==> r.error == UserNotFound(userId) && s.users == old(s.users)
    ensures r == Pass ==> s.users == old(s.users) - {userId}
    ensures EmailsUnique(old(s.users)) ==> EmailsUnique(s.users)
    ensures s.newId == old(s.newId)
  {
    var check := s.UserExistenceCheck(userId);
    if check.Fail? {
      return check;
    }
    s.DeleteUser(userId);
    r := Pass;
  }
}
