/** Administration of roles: list, create, rename or re-flag, and delete a
    role no user holds.  Every handler needs a caller whose role row exists
    and is flagged `is_admin`. */
module Roles {
  import opened Common
  import opened Models
  import Permissions
  import Users

  const AdminRequired: string := "Admin role required"
  const NameTaken: string := "Role name already exists"
  const RoleNotFound: string := "Role not found"

  /** The caller's role row exists and is flagged `is_admin`. */
  predicate IsRoleAdmin(roles: map<int, Role>, caller: User)
    ensures IsRoleAdmin(roles, caller)
        <==> caller.roleId.Some? && caller.roleId.value in roles && roles[caller.roleId.value].isAdmin
  {
    Permissions.RoleOf(roles, caller).Some? && Permissions.RoleOf(roles, caller).value.isAdmin
  }

  /** `require_admin` as written, which every roles handler calls before
      anything else: it reads the caller's lazy `role`, so a caller with a
      role id gets a 500 and one without gets the 403.  Nobody passes. */
  function RequireAdminAsWritten(caller: User): (r: Result<Role>)
    ensures r.Err?
    ensures caller.roleId.Some? <==> r == Err(500, MissingGreenletDetail)
    ensures caller.roleId.None? <==> r == Err(403, AdminRequired)
  {
    var role := Permissions.LazyRoleAsWritten(caller);
    if role.Err? then Err(500, MissingGreenletDetail)
    else Err(403, AdminRequired)  // the read gave no role
  }

  /** A caller whose stored role is flagged `is_admin` passes the intended
      check but is answered 500 as written. */
  lemma RoleAdminRefusedAsWritten(roles: map<int, Role>, caller: User)
    requires IsRoleAdmin(roles, caller)
    ensures RequireAdminAsWritten(caller) == Err(500, MissingGreenletDetail)
  {
  }

  /** The roles handlers and the users handlers ask for different things: a
      caller with role id 1 whose role is not flagged `is_admin` may manage
      users but not roles, and a caller whose role 2 is flagged may manage
      roles but not users. */
  lemma AdminChecksDiffer(caller: User)
    ensures var c := caller.(roleId := Some(1));
            Users.IsAdmin(c) && !IsRoleAdmin(map[1 := Role(1, "admin", false)], c)
    ensures var c := caller.(roleId := Some(2));
            !Users.IsAdmin(c) && IsRoleAdmin(map[2 := Role(2, "tester", true)], c)
  {
  }

  /** All roles by id. */
  function ListRoles(roles: map<int, Role>, caller: User): (r: Result<seq<Role>>)
    requires RolesKeyed(roles)
    ensures !IsRoleAdmin(roles, caller) <==> r == Err(403, AdminRequired)
    ensures r.Ok? ==> |r.value| == |roles| && forall x :: x in r.value <==> exists k :: k in roles && roles[k] == x
    ensures r.Ok? ==> forall i, j :: 0 <= i < j < |r.value| ==> r.value[i].id < r.value[j].id
  {
    if !IsRoleAdmin(roles, caller) then Err(403, AdminRequired)
    else
      var ks := Sorting.Ascending(roles.Keys);
      assert |roles.Keys| == |roles|;
      AllKeysAllRows(roles, ks);
      var rows := RowsAt(roles, ks);
      assert forall i :: 0 <= i < |ks| ==> rows[i].id == ks[i];
      Ok(rows)
  }

  /** Inserting a role under a fresh id, with a name no role has, keeps the
      roles table valid. */
  lemma InsertKeepsRolesValid(m: map<int, Role>, x: Role)
    requires RolesValid(m) && x.id !in m
    requires forall k :: k in m ==> m[k].name != x.name
    ensures RolesValid(m[x.id := x])
  {
    var m' := m[x.id := x];
    forall a, b | a in m' && b in m' && m'[a].name == m'[b].name ensures a == b {
      if a != x.id && b != x.id {
        assert m'[a] == m[a] && m'[b] == m[b];
      }
    }
  }

  /** Some role is named `name`. */
  predicate NameUsed(roles: map<int, Role>, name: string) {
    exists k :: k in roles && roles[k].name == name
  }

  method CreateRole(db: Database, caller: User, name: string, isAdmin: bool) returns (r: Result<Role>)
    requires RolesValid(db.roles)
    modifies db`roles
    ensures RolesValid(db.roles)
    ensures !IsRoleAdmin(old(db.roles), caller) ==> r == Err(403, AdminRequired)
    ensures IsRoleAdmin(old(db.roles), caller) && NameUsed(old(db.roles), name) ==> r == Err(400, NameTaken)
    ensures r.Err? <==> !IsRoleAdmin(old(db.roles), caller) || NameUsed(old(db.roles), name)
    ensures r.Err? ==> db.roles == old(db.roles)
    ensures r.Ok? ==>
      && IsRoleAdmin(old(db.roles), caller) && !NameUsed(old(db.roles), name)
      && r.value.id !in old(db.roles) && r.value.name == name && r.value.isAdmin == isAdmin
      && db.roles == old(db.roles)[r.value.id := r.value]
  {
    if !IsRoleAdmin(db.roles, caller) {
      return Err(403, AdminRequired);
    }
    if NameUsed(db.roles, name) {
      return Err(400, NameTaken);
    }
    var role := Role(NewId(db.roles.Keys), name, isAdmin);
    InsertKeepsRolesValid(db.roles, role);
    db.roles := db.roles[role.id := role];
    r := Ok(role);
  }

  /** Renames the role when a non-empty, different name is given (refused
      if another role has it), and sets the flag when one is given. */
  method UpdateRole(db: Database, caller: User, roleId: int, name: Option<string>, isAdmin: Option<bool>)
    returns (r: Result<Role>)
    requires RolesValid(db.roles)
    modifies db`roles
    ensures RolesValid(db.roles)
    ensures !IsRoleAdmin(old(db.roles), caller) ==> r == Err(403, AdminRequired)
    ensures IsRoleAdmin(old(db.roles), caller) && roleId !in old(db.roles) ==> r == Err(404, RoleNotFound)
    ensures IsRoleAdmin(old(db.roles), caller) && roleId in old(db.roles)
            && Given(name) && name.value != old(db.roles)[roleId].name && NameUsed(old(db.roles), name.value)
        ==> r == Err(400, NameTaken)
    ensures r.Err? <==>
      || !IsRoleAdmin(old(db.roles), caller) || roleId !in old(db.roles)
      || (Given(name) && name.value != old(db.roles)[roleId].name && NameUsed(old(db.roles), name.value))
    ensures r.Err? ==> db.roles == old(db.roles)
    ensures r.Ok? ==>
      && IsRoleAdmin(old(db.roles), caller) && roleId in old(db.roles)
      && var before := old(db.roles)[roleId];
         && r.value.id == roleId
         && r.value.name == (if Given(name) then name.value else before.name)
         && r.value.isAdmin == (if isAdmin.Some? then isAdmin.value else before.isAdmin)
         && db.roles == old(db.roles)[roleId := r.value]
  {
    if !IsRoleAdmin(db.roles, caller) {
      return Err(403, AdminRequired);
    }
    if roleId !in db.roles {
      return Err(404, RoleNotFound);
    }
    var role := db.roles[roleId];
    if Given(name) && name.value != role.name {
      if NameUsed(db.roles, name.value) {
        return Err(400, NameTaken);
      }
      role := role.(name := name.value);
    }
    if isAdmin.Some? {
      role := role.(isAdmin := isAdmin.value);
    }
    var m := db.roles[roleId := role];
    forall a, b | a in m && b in m && m[a].name == m[b].name ensures a == b {
      if a != roleId && b != roleId {
        assert m[a] == db.roles[a] && m[b] == db.roles[b];
      }
    }
    db.roles := m;
    r := Ok(role);
  }

  /** Some user holds role `roleId`. */
  predicate RoleInUse(users: map<int, User>, roleId: int) {
    exists k :: k in users && users[k].roleId == Some(roleId)
  }

  datatype RoleDeleted = RoleDeleted(status: string, roleId: int)

  /** Deletes a role that no user holds. */
  method DeleteRole(db: Database, caller: User, roleId: int) returns (r: Result<RoleDeleted>)
    requires RolesValid(db.roles)
    modifies db`roles
    ensures RolesValid(db.roles)
    ensures !IsRoleAdmin(old(db.roles), caller) ==> r == Err(403, AdminRequired)
    ensures IsRoleAdmin(old(db.roles), caller) && roleId !in old(db.roles) ==> r == Err(404, RoleNotFound)
    ensures IsRoleAdmin(old(db.roles), caller) && roleId in old(db.roles) && RoleInUse(db.users, roleId)
        ==> r == Err(400, "Role is in use by users")
    ensures r.Ok? <==> IsRoleAdmin(old(db.roles), caller) && roleId in old(db.roles) && !RoleInUse(db.users, roleId)
    ensures r.Ok? ==> r.value == RoleDeleted("deleted", roleId) && db.roles == old(db.roles) - {roleId}
    ensures r.Err? ==> db.roles == old(db.roles)
  {
    if !IsRoleAdmin(db.roles, caller) {
      return Err(403, AdminRequired);
    }
    if roleId !in db.roles {
      return Err(404, RoleNotFound);
    }
    if RoleInUse(db.users, roleId) {
      return Err(400, "Role is in use by users");
    }
    var m := db.roles - {roleId};
    assert forall k :: k in m ==> m[k] == db.roles[k];
    db.roles := m;
    r := Ok(RoleDeleted("deleted", roleId));
  }
}
