/** Administration of user accounts: listing, creating, reading, partially
    updating and deleting users.  Every handler except `me` is open only to
    callers with role id 1.  Password hashing is a parameter: the handler
    receives the hash of the submitted password. */
module Users {
  import opened Common
  import opened Models
  import Sorting

  const AdminOnly: string := "Admin only"

  /** The caller holds role id 1. */
  predicate IsAdmin(caller: User)
    ensures IsAdmin(caller) <==> caller.roleId.Some? && caller.roleId.value == 1
  {
    caller.roleId == Some(1)
  }

  /** The user as the handlers answer it: every column but the password
      hash. */
  datatype UserOut = UserOut(
    id: int, email: string, name: Option<string>, tel: Option<string>, address: Option<string>,
    city: Option<string>, country: Option<string>, roleId: Option<int>, organizationId: Option<int>,
    createdAt: int)

  function ToOut(u: User): (r: UserOut)
    ensures r.id == u.id && r.email == u.email && r.name == u.name && r.createdAt == u.createdAt
    ensures r.tel == u.tel && r.address == u.address && r.city == u.city && r.country == u.country
    ensures r.roleId == u.roleId && r.organizationId == u.organizationId
  {
    UserOut(u.id, u.email, u.name, u.tel, u.address, u.city, u.country, u.roleId, u.organizationId, u.createdAt)
  }

  /** The caller's own record; open to every authenticated user. */
  function Me(caller: User): (r: UserOut)
    ensures r.id == caller.id && r.email == caller.email && r.roleId == caller.roleId
  {
    ToOut(caller)
  }

  /** All users, newest (largest id) first. */
  function ListUsers(users: map<int, User>, caller: User): (r: Result<seq<UserOut>>)
    requires UsersKeyed(users)
    ensures !IsAdmin(caller) <==> r == Err(403, AdminOnly)
    ensures r.Ok? ==>
      var rows := r.value;
      && |rows| == |users|
      && (forall i :: 0 <= i < |rows| ==> rows[i].id in users && rows[i] == ToOut(users[rows[i].id]))
      && (forall i, j :: 0 <= i < j < |rows| ==> rows[i].id > rows[j].id)
  {
    if !IsAdmin(caller) then Err(403, AdminOnly)
    else
      var ks := Sorting.Descending(users.Keys);
      assert |users.Keys| == |users|;
      Ok(RowsOf(users, ks))
  }

  /** The output rows of the users with keys `ks`, in that order. */
  function RowsOf(users: map<int, User>, ks: seq<int>): (rows: seq<UserOut>)
    requires UsersKeyed(users) && forall i :: 0 <= i < |ks| ==> ks[i] in users
    ensures |rows| == |ks|
    ensures forall i :: 0 <= i < |ks| ==> rows[i] == ToOut(users[ks[i]]) && rows[i].id == ks[i]
  {
    seq(|ks|, i requires 0 <= i < |ks| => ToOut(users[ks[i]]))
  }

  /** Every user is listed. */
  lemma ListUsersComplete(users: map<int, User>, caller: User, k: int)
    requires UsersKeyed(users) && IsAdmin(caller) && k in users
    ensures ToOut(users[k]) in ListUsers(users, caller).value
  {
    var ks := Sorting.Descending(users.Keys);
    var i :| 0 <= i < |ks| && ks[i] == k;
    assert ListUsers(users, caller).value[i] == ToOut(users[k]);
  }

  /** The fields of a new account. */
  datatype UserCreateIn = UserCreateIn(
    email: string, name: string, tel: Option<string>, address: Option<string>, city: Option<string>,
    country: Option<string>, roleId: int, organizationId: Option<int>)

  /** Creates an account; `hashed` is the hash of the submitted password. */
  method CreateUser(db: Database, caller: User, payload: UserCreateIn, hashed: string, now: int)
    returns (r: Result<UserOut>)
    requires UsersValid(db.users) && TokensValid(db.tokens, db.users)
    modifies db`users
    ensures UsersValid(db.users) && TokensValid(db.tokens, db.users)
    ensures !IsAdmin(caller) ==> r == Err(403, AdminOnly)
    ensures IsAdmin(caller) && HasEmail(old(db.users), payload.email) ==> r == Err(409, "Email already exists")
    ensures r.Err? <==> !IsAdmin(caller) || HasEmail(old(db.users), payload.email)
    ensures r.Err? ==> db.users == old(db.users)
    ensures r.Ok? ==>
      && IsAdmin(caller) && !HasEmail(old(db.users), payload.email)
      && var u := User(r.value.id, payload.email, hashed, Some(payload.name), payload.tel, payload.address,
                       payload.city, payload.country, Some(payload.roleId), payload.organizationId, now);
         r.value.id !in old(db.users) && r.value == ToOut(u) && db.users == old(db.users)[u.id := u]
  {
    if !IsAdmin(caller) {
      return Err(403, AdminOnly);
    }
    if HasEmail(db.users, payload.email) {
      return Err(409, "Email already exists");
    }
    var u := User(NewId(db.users.Keys), payload.email, hashed, Some(payload.name), payload.tel, payload.address,
                  payload.city, payload.country, Some(payload.roleId), payload.organizationId, now);
    InsertKeepsUsersValid(db.users, u);
    NewUserKeepsTokensValid(db.tokens, db.users, u);
    db.users := db.users[u.id := u];
    r := Ok(ToOut(u));
  }

  function GetUser(users: map<int, User>, caller: User, userId: int): (r: Result<UserOut>)
    ensures !IsAdmin(caller) ==> r == Err(403, AdminOnly)
    ensures IsAdmin(caller) && userId !in users ==> r == Err(404, "User not found")
    ensures r.Ok? <==> IsAdmin(caller) && userId in users
    ensures r.Ok? ==> r.value == ToOut(users[userId])
  {
    if !IsAdmin(caller) then Err(403, AdminOnly)
    else if userId !in users then Err(404, "User not found")
    else Ok(ToOut(users[userId]))
  }

  /** A partial update: `None` means "leave unchanged". */
  datatype UserUpdateIn = UserUpdateIn(
    email: Option<string>, password: Option<string>, name: Option<string>, tel: Option<string>,
    address: Option<string>, city: Option<string>, country: Option<string>, roleId: Option<int>,
    organizationId: Option<int>)

  /** The value a field takes: the supplied one, or the old one for `None`. */
  function Keep<T>(supplied: Option<T>, current: Option<T>): Option<T> {
    if supplied.Some? then supplied else current
  }

  /** Applies the supplied fields one by one.  The address is checked for
      uniqueness only when it changes; `hashed` (the hash of the supplied
      password) is stored only when a non-empty password is supplied. */
  method UpdateUser(db: Database, caller: User, userId: int, payload: UserUpdateIn, hashed: string)
    returns (r: Result<UserOut>)
    requires UsersValid(db.users) && TokensValid(db.tokens, db.users)
    modifies db`users
    ensures UsersValid(db.users) && TokensValid(db.tokens, db.users)
    ensures !IsAdmin(caller) ==> r == Err(403, AdminOnly)
    ensures IsAdmin(caller) && userId !in old(db.users) ==> r == Err(404, "User not found")
    ensures IsAdmin(caller) && userId in old(db.users)
            && Given(payload.email) && payload.email.value != old(db.users)[userId].email
            && HasEmail(old(db.users), payload.email.value)
        ==> r == Err(409, "Email already exists")
    ensures r.Err? <==>
      || !IsAdmin(caller) || userId !in old(db.users)
      || (Given(payload.email) && payload.email.value != old(db.users)[userId].email
          && HasEmail(old(db.users), payload.email.value))
    ensures r.Err? ==> db.users == old(db.users)
    ensures r.Ok? ==>
      && IsAdmin(caller) && userId in old(db.users) && userId in db.users
      && var u := old(db.users)[userId];
         var u' := db.users[userId];
         && db.users == old(db.users)[userId := u']
         && r.value == ToOut(u')
         && u'.id == u.id && u'.createdAt == u.createdAt
         && u'.email == (if Given(payload.email) then payload.email.value else u.email)
         && u'.hashedPassword == (if Given(payload.password) then hashed else u.hashedPassword)
         && u'.name == Keep(payload.name, u.name)
         && u'.tel == Keep(payload.tel, u.tel) && u'.address == Keep(payload.address, u.address)
         && u'.city == Keep(payload.city, u.city) && u'.country == Keep(payload.country, u.country)
         && u'.roleId == Keep(payload.roleId, u.roleId)
         && u'.organizationId == Keep(payload.organizationId, u.organizationId)
  {
    if !IsAdmin(caller) {
      return Err(403, AdminOnly);
    }
    if userId !in db.users {
      return Err(404, "User not found");
    }
    var u := db.users[userId];
    if Given(payload.email) && payload.email.value != u.email {
      if HasEmail(db.users, payload.email.value) {
        return Err(409, "Email already exists");
      }
      u := u.(email := payload.email.value);
    }
    if Given(payload.password) {
      u := u.(hashedPassword := hashed);
    }
    u := u.(name := Keep(payload.name, u.name));
    u := u.(tel := Keep(payload.tel, u.tel));
    u := u.(address := Keep(payload.address, u.address));
    u := u.(city := Keep(payload.city, u.city));
    u := u.(country := Keep(payload.country, u.country));
    u := u.(roleId := Keep(payload.roleId, u.roleId));
    u := u.(organizationId := Keep(payload.organizationId, u.organizationId));
    UpdateKeepsUsersValid(db.users, db.tokens, u);
    db.users := db.users[userId := u];
    r := Ok(ToOut(u));
  }

  /** Rewriting a user's row, with an address no other user has, keeps the
      users and tokens tables valid. */
  lemma UpdateKeepsUsersValid(users: map<int, User>, tokens: map<int, Token>, u: User)
    requires UsersValid(users) && TokensValid(tokens, users) && u.id in users
    requires forall k :: k in users && k != u.id ==> users[k].email != u.email
    ensures UsersValid(users[u.id := u]) && TokensValid(tokens, users[u.id := u])
  {
    var m := users[u.id := u];
    forall a, b | a in m && b in m && m[a].email == m[b].email ensures a == b {
      if a != u.id && b != u.id {
        assert m[a] == users[a] && m[b] == users[b];
      }
    }
  }

  datatype Deleted = Deleted(status: string, userId: int)

  /** The guards of the delete handler, in order: admin, not oneself, the
      user exists. */
  function DeleteUserGuard(users: map<int, User>, caller: User, userId: int): (r: Result<Deleted>)
    ensures r.Ok? <==> IsAdmin(caller) && caller.id != userId && userId in users
    ensures r.Ok? ==> r.value == Deleted("deleted", userId)
  {
    if !IsAdmin(caller) then Err(403, AdminOnly)
    else if caller.id == userId then Err(400, "You cannot delete yourself")
    else if userId !in users then Err(404, "User not found")
    else Ok(Deleted("deleted", userId))
  }

  /** Refusing to delete oneself comes before looking the user up, so an
      administrator deleting their own id gets 400 even if that row is
      gone. */
  lemma SelfDeletionRefusedFirst(users: map<int, User>, caller: User)
    requires IsAdmin(caller)
    ensures DeleteUserGuard(users, caller, caller.id) == Err(400, "You cannot delete yourself")
  {
  }

  /** The handler as written: a bulk `DELETE` statement on `users`, which
      runs none of the ORM cascades (and SQLite enforces no foreign keys by
      default), so the token, the memberships and the owned projects of
      the user stay behind. */
  method DeleteUserAsWritten(db: Database, caller: User, userId: int) returns (r: Result<Deleted>)
    requires UsersValid(db.users)
    modifies db`users
    ensures UsersValid(db.users)
    ensures r == DeleteUserGuard(old(db.users), caller, userId)
    ensures r.Ok? ==> db.users == old(db.users) - {userId}
    ensures r.Err? ==> db.users == old(db.users)
  {
    r := DeleteUserGuard(db.users, caller, userId);
    if r.Ok? {
      db.users := db.users - {userId};
      assert forall k :: k in db.users ==> db.users[k] == old(db.users)[k];
    }
  }

  /** The bulk delete breaks the tokens table's reference to its user: a
      user with a token, deleted, leaves the token pointing nowhere. */
  lemma BulkDeleteLeavesToken(u: User)
    ensures var users := map[u.id := u];
            var tokens := map[u.id := Token(u.id, "t", 0)];
            TokensValid(tokens, users) && !TokensValid(tokens, users - {u.id})
  {
    var users := map[u.id := u];
    var tokens := map[u.id := Token(u.id, "t", 0)];
    assert u.id in tokens && u.id !in users - {u.id};
  }

  /** The handler with the cascades `User` declares: the projects the user
      owns (with their logs, requirements and member rows), the token, and
      the group and project memberships are deleted with the user. */
  method DeleteUser(db: Database, caller: User, userId: int) returns (r: Result<Deleted>)
    requires UsersValid(db.users) && TokensValid(db.tokens, db.users)
    requires GroupMembersValid(db.groupMembers, db.groups, db.users)
    requires ProjectMembersValid(db.projectMembers, db.projects, db.users)
    requires ProjectsValid(db.projects, db.users)
    requires RequirementsValid(db.requirements, db.projects)
    requires RequestLogsValid(db.requestLogs, db.projects)
    modifies db`users, db`tokens, db`groupMembers, db`projectMembers, db`projects, db`requestLogs, db`requirements
    ensures UsersValid(db.users) && TokensValid(db.tokens, db.users)
    ensures GroupMembersValid(db.groupMembers, db.groups, db.users)
    ensures ProjectMembersValid(db.projectMembers, db.projects, db.users)
    ensures ProjectsValid(db.projects, db.users)
    ensures RequirementsValid(db.requirements, db.projects)
    ensures RequestLogsValid(db.requestLogs, db.projects)
    ensures r == DeleteUserGuard(old(db.users), caller, userId)
    ensures r.Ok? ==>
      && userId !in db.users && userId !in db.tokens
      && db.users == Without(old(db.users), {userId})
      && var ps := OwnedBy(old(db.projects), {userId});
         && db.projects == Without(old(db.projects), ps)
         && db.tokens == Without(old(db.tokens), {userId})
         && db.groupMembers == PairsOutside(old(db.groupMembers), {}, {userId})
         && db.projectMembers == PairsOutside(old(db.projectMembers), ps, {userId})
         && db.requestLogs == LogsOutside(old(db.requestLogs), ps)
         && db.requirements == RequirementsOutside(old(db.requirements), ps)
    ensures r.Err? ==>
      db.users == old(db.users) && db.tokens == old(db.tokens) && db.projects == old(db.projects)
      && db.groupMembers == old(db.groupMembers) && db.projectMembers == old(db.projectMembers)
      && db.requestLogs == old(db.requestLogs) && db.requirements == old(db.requirements)
  {
    r := DeleteUserGuard(db.users, caller, userId);
    if r.Ok? {
      var ps := OwnedBy(db.projects, {userId});
      ghost var members := db.projectMembers;
      DeleteProjects(db, ps);
      DeleteUsers(db, {userId});
      PairsOutsideTwice(members, ps, {}, {}, {userId});
      assert ps + {} == ps && {} + {userId} == {userId};
    }
  }
}
