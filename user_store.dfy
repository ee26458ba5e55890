/** The account request handlers over the `User` collection. Each handler acts for
    the authenticated user passed in as `requester`. Password hashing and checking
    (argon2) are supplied by the caller as functions. */
module UserHandlers {
  import opened Common
  import opened Text
  import opened UserModel
  import TodoHandlers

  /** What every stored account satisfies whatever handler wrote it last: the
      username and email constraints. (The password path holds a hash; the
      password update does not run validators.) */
  predicate ValidProfile(u: User) {
    Utf16Length(u.username) >= UsernameMin && Trim(u.username) == u.username &&
    MatchesEmailPattern(u.email) && Lower(u.email) == u.email
  }

  /** The conflict query of `updateProfile`: some other account already has the
      (cast) username or email. */
  predicate Taken(users: map<UserId, User>, requester: UserId, username: string, email: string) {
    exists other :: other in users && other != requester &&
      (users[other].username == Trim(username) || users[other].email == Lower(Trim(email)))
  }

  /** Replacing one account by a valid profile whose username and email no other
      account holds keeps the collection unique and valid. */
  lemma ReplaceKeepsUnique(users: map<UserId, User>, id: UserId, u: User)
    requires UniqueAccounts(users) && forall k :: k in users ==> ValidProfile(users[k])
    requires ValidProfile(u)
    requires forall other :: other in users && other != id ==>
      users[other].username != u.username && users[other].email != u.email
    ensures var next := users[id := u];
      UniqueAccounts(next) && forall k :: k in next ==> ValidProfile(next[k])
  {
  }

  /** Changing anything but the username and email of an account keeps the
      collection unique and valid. */
  lemma SameProfileKeepsUnique(users: map<UserId, User>, id: UserId, u: User)
    requires UniqueAccounts(users) && forall k :: k in users ==> ValidProfile(users[k])
    requires id in users && u.username == users[id].username && u.email == users[id].email
    ensures var next := users[id := u];
      UniqueAccounts(next) && forall k :: k in next ==> ValidProfile(next[k])
  {
    assert ValidProfile(users[id]);
    ReplaceKeepsUnique(users, id, u);
  }

  class UserStore {
    var users: map<UserId, User>

    ghost predicate Valid()
      reads this
    {
      UniqueAccounts(users) && forall id :: id in users ==> ValidProfile(users[id])
    }

    constructor()
      ensures Valid() && users == map[]
    {
      users := map[];
    }

    /** `updateProfile`: 409 when another account holds the username or email, 500
        when the new values fail validation, 404 when the caller's account is gone;
        otherwise the account's username and email are replaced by their cast forms
        and its JSON form (without the password) is answered. */
    method UpdateProfile(requester: UserId, username: string, email: string, now: Millis)
      returns (res: Result<map<string, JsonValue>, nat>)
      requires Valid()
      modifies this
      ensures Valid()
      ensures Taken(old(users), requester, username, email) ==> res == Err(Conflict)
      ensures (!Taken(old(users), requester, username, email) &&
               (CreateUsername(Some(username)).Err? || CreateEmail(Some(email)).Err?)) ==> res == Err(ServerError)
      ensures (!Taken(old(users), requester, username, email) &&
               CreateUsername(Some(username)).Ok? && CreateEmail(Some(email)).Ok? &&
               requester !in old(users)) ==> res == Err(NotFound)
      ensures (!Taken(old(users), requester, username, email) &&
               CreateUsername(Some(username)).Ok? && CreateEmail(Some(email)).Ok? &&
               requester in old(users)) ==> res.Ok?
      ensures res.Err? ==> users == old(users)
      ensures res.Ok? ==>
        (requester in old(users) &&
         var u := old(users)[requester].(username := Trim(username), email := Lower(Trim(email)), updatedAt := now);
         users == old(users)[requester := u] && res.value == ToJson(requester, u) && "password" !in res.value)
    {
      if Taken(users, requester, username, email) {
        return Err(Conflict);
      }
      var name := CreateUsername(Some(username));
      var mail := CreateEmail(Some(email));
      if name.Err? || mail.Err? {
        return Err(ServerError);
      }
      if requester !in users {
        return Err(NotFound);
      }
      TrimIdempotent(username);
      LowerIdempotent(Trim(email));
      var u := users[requester].(username := name.value, email := mail.value, updatedAt := now);
      assert ValidProfile(u);
      ReplaceKeepsUnique(users, requester, u);
      users := users[requester := u];
      res := Ok(ToJson(requester, u));
    }

    /** `changePassword`: 404 when the caller's account is gone, 401 when
        `verify(storedHash, currentPassword)` fails, 500 when no new password is
        given (hashing it throws); otherwise the stored hash becomes
        `hash(newPassword)`. The new password's length is not checked. */
    method ChangePassword(requester: UserId, currentPassword: string, newPassword: Option<string>,
                          verify: (string, string) -> bool, hash: string -> string, now: Millis)
      returns (status: nat)
      requires Valid()
      modifies this
      ensures Valid()
      ensures requester !in old(users) ==> status == NotFound && users == old(users)
      ensures requester in old(users) && !verify(old(users)[requester].password, currentPassword) ==>
        status == Unauthorized && users == old(users)
      ensures (requester in old(users) && verify(old(users)[requester].password, currentPassword) &&
               newPassword.None?) ==> status == ServerError && users == old(users)
      ensures (requester in old(users) && verify(old(users)[requester].password, currentPassword) &&
               newPassword.Some?) ==>
          status == Success &&
          users == old(users)[requester := old(users)[requester].(password := hash(newPassword.value),
                                                                 updatedAt := now)]
    {
      if requester !in users {
        return NotFound;
      }
      if !verify(users[requester].password, currentPassword) {
        return Unauthorized;
      }
      if newPassword.None? {
        return ServerError;
      }
      var hashed := hash(newPassword.value);
      var u := users[requester].(password := hashed, updatedAt := now);
      SameProfileKeepsUnique(users, requester, u);
      users := users[requester := u];
      status := Success;
    }

    /** `deleteAccount`: the caller's todos are deleted first, whatever follows;
        then 404 when the account is gone, else the account is removed. The
        caller's keys and rewards are not touched. */
    method DeleteAccount(requester: UserId, todos: TodoHandlers.TodoStore) returns (status: nat)
      requires Valid() && todos.Valid()
      modifies this, todos
      ensures Valid() && todos.Valid()
      ensures todos.todos == map id | id in old(todos.todos) && old(todos.todos)[id].user != requester ::
        old(todos.todos)[id]
      ensures requester !in old(users) ==> status == NotFound && users == old(users)
      ensures requester in old(users) ==> status == Success && users == old(users) - {requester}
    {
      todos.DeleteAllOf(requester);
      if requester !in users {
        return NotFound;
      }
      users := users - {requester};
      status := Success;
    }
  }
}
