/** The second version of the project guards: the edit check folds the
    level's case, and the sharing check accepts any "admin" role (by name or
    by flag) without asking for membership.  No handler calls this version;
    the lemmas at the end say where it and `Permissions` decide differently. */
module ProjectAccess {
  import opened Common
  import opened Models
  import Permissions

  /** Like `Permissions.EnsureProjectAccess`, except that editing compares
      the lower-cased level with "editor". */
  function EnsureProjectAccess(projects: map<int, Project>, members: map<(int, int), ProjectMember>,
                               projectId: int, userId: int, allowView: bool): (r: Result<Project>)
    ensures r.Ok? ==> projectId in projects && r.value == projects[projectId]
    ensures r.Err? ==> r.status == 404 || r.status == 403
  {
    if projectId !in projects then Err(404, "Project not found")
    else if projects[projectId].ownerUserId == userId then Ok(projects[projectId])
    else if (projectId, userId) !in members then Err(403, "No access to this project")
    else if !allowView && Lower(members[(projectId, userId)].accessLevel) != "editor" then
      Err(403, "Not enough permissions")
    else Ok(projects[projectId])
  }

  /** The owner may manage sharing; otherwise the caller needs a (truthy)
      role id whose role exists and is named "admin" or flagged `is_admin`. */
  function EnsureProjectAdmin(projects: map<int, Project>, roles: map<int, Role>,
                              projectId: int, user: User): (r: Result<Project>)
    ensures r.Ok? ==> projectId in projects && r.value == projects[projectId]
  {
    var denied := Err(403, "Only owner/admin can manage sharing");
    if projectId !in projects then Err(404, "Project not found")
    else if projects[projectId].ownerUserId == user.id then Ok(projects[projectId])
    else if !Truthy(user.roleId) then denied
    else if user.roleId.value !in roles then denied
    else
      var role := roles[user.roleId.value];
      var isAdmin := (role.name != "" && role.name == "admin") || role.isAdmin;
      if !isAdmin then denied else Ok(projects[projectId])
  }

  // ---------------------------------------------------------------------
  // What this version decides
  // ---------------------------------------------------------------------

  lemma AccessGrantedIff(projects: map<int, Project>, members: map<(int, int), ProjectMember>,
                         projectId: int, userId: int, allowView: bool)
    ensures EnsureProjectAccess(projects, members, projectId, userId, allowView).Ok?
        <==> projectId in projects
             && (projects[projectId].ownerUserId == userId
                 || ((projectId, userId) in members
                     && (allowView || Lower(members[(projectId, userId)].accessLevel) == "editor")))
  {
  }

  /** The owner of an existing project passes both checks, whatever the role. */
  lemma OwnerAlwaysAllowed(projects: map<int, Project>, members: map<(int, int), ProjectMember>,
                           roles: map<int, Role>, projectId: int, user: User, allowView: bool)
    requires projectId in projects && projects[projectId].ownerUserId == user.id
    ensures EnsureProjectAccess(projects, members, projectId, user.id, allowView) == Ok(projects[projectId])
    ensures EnsureProjectAdmin(projects, roles, projectId, user) == Ok(projects[projectId])
  {
  }

  lemma UnknownProjectIsNotFound(projects: map<int, Project>, members: map<(int, int), ProjectMember>,
                                 roles: map<int, Role>, projectId: int, user: User, allowView: bool)
    requires projectId !in projects
    ensures EnsureProjectAccess(projects, members, projectId, user.id, allowView) == Err(404, "Project not found")
    ensures EnsureProjectAdmin(projects, roles, projectId, user) == Err(404, "Project not found")
  {
  }

  lemma NonMemberRefused(projects: map<int, Project>, members: map<(int, int), ProjectMember>,
                         projectId: int, userId: int, allowView: bool)
    requires projectId in projects && projects[projectId].ownerUserId != userId
    requires (projectId, userId) !in members
    ensures EnsureProjectAccess(projects, members, projectId, userId, allowView) == Err(403, "No access to this project")
  {
  }

  /** A non-owner without a truthy role id, or whose role row is missing, is
      refused. */
  lemma AdminNeedsRole(projects: map<int, Project>, roles: map<int, Role>, projectId: int, user: User)
    requires projectId in projects && projects[projectId].ownerUserId != user.id
    requires !Truthy(user.roleId) || user.roleId.value !in roles
    ensures EnsureProjectAdmin(projects, roles, projectId, user) == Err(403, "Only owner/admin can manage sharing")
  {
  }

  /** For a non-owner with an existing role, sharing is granted exactly when
      the role is named "admin" or flagged as admin. */
  lemma AdminGrantedIff(projects: map<int, Project>, roles: map<int, Role>, projectId: int, user: User)
    requires projectId in projects && projects[projectId].ownerUserId != user.id
    requires Truthy(user.roleId) && user.roleId.value in roles
    ensures EnsureProjectAdmin(projects, roles, projectId, user).Ok?
        <==> roles[user.roleId.value].name == "admin" || roles[user.roleId.value].isAdmin
  {
  }

  // ---------------------------------------------------------------------
  // Where the two versions meet and part
  // ---------------------------------------------------------------------

  /** Lower-casing changes nothing for "viewer" and "editor". */
  lemma LowerOfLevel(l: string)
    requires IsLevel(l)
    ensures Lower(l) == l
  {
    assert Lower("viewer") == "viewer";
    assert Lower("editor") == "editor";
  }

  /** On a store whose levels are all "viewer" or "editor" — what the
      sharing handler writes — the two access checks agree everywhere. */
  lemma {:induction false} AccessVersionsAgreeOnStoredLevels(
    projects: map<int, Project>, members: map<(int, int), ProjectMember>,
    projectId: int, userId: int, allowView: bool)
    requires LevelsValid(members)
    ensures EnsureProjectAccess(projects, members, projectId, userId, allowView)
         == Permissions.EnsureProjectAccess(projects, members, projectId, userId, allowView)
  {
    if (projectId, userId) in members {
      LowerOfLevel(members[(projectId, userId)].accessLevel);
    }
  }

  /** The versions part on a level spelled "EDITOR": this one lets the
      member edit, `Permissions` refuses. */
  lemma EditorInCapitalsSplitsVersions(owner: int, userId: int)
    requires owner != userId
    ensures var projects := map[1 := Project(1, "p", None, None, owner, 0)];
            var members := map[(1, userId) := ProjectMember(1, 1, userId, "EDITOR", 0)];
            EnsureProjectAccess(projects, members, 1, userId, false).Ok?
            && Permissions.EnsureProjectAccess(projects, members, 1, userId, false) == Err(403, "Not enough permissions")
  {
    assert Lower("EDITOR") == "editor";
  }

  /** Whoever may edit under `Permissions` may edit here too. */
  lemma {:induction false} ExactEditorPassesBoth(projects: map<int, Project>, members: map<(int, int), ProjectMember>,
                                                 projectId: int, userId: int, allowView: bool)
    ensures Permissions.EnsureProjectAccess(projects, members, projectId, userId, allowView).Ok?
        ==> EnsureProjectAccess(projects, members, projectId, userId, allowView).Ok?
  {
    if (projectId, userId) in members && members[(projectId, userId)].accessLevel == "editor" {
      LowerOfLevel("editor");
    }
  }

  /** An "admin" who is not a member may manage sharing here but not under
      `Permissions`. */
  lemma AdminWithoutMembershipSplitsVersions(owner: int, user: User)
    requires owner != user.id && user.roleId == Some(7)
    ensures var projects := map[1 := Project(1, "p", None, None, owner, 0)];
            var roles := map[7 := Role(7, "admin", false)];
            EnsureProjectAdmin(projects, roles, 1, user).Ok?
            && Permissions.EnsureProjectAdmin(projects, map[], roles, 1, user) == Err(403, "No access to this project")
  {
  }

  /** A member whose role is flagged `is_admin` under another name may
      manage sharing here but not under `Permissions`. */
  lemma FlaggedAdminSplitsVersions(owner: int, user: User)
    requires owner != user.id && user.roleId == Some(7)
    ensures var projects := map[1 := Project(1, "p", None, None, owner, 0)];
            var members := map[(1, user.id) := ProjectMember(1, 1, user.id, "viewer", 0)];
            var roles := map[7 := Role(7, "superuser", true)];
            EnsureProjectAdmin(projects, roles, 1, user).Ok?
            && Permissions.EnsureProjectAdmin(projects, members, roles, 1, user) == Err(403, "Only owner/admin can manage sharing")
  {
  }

  /** Whoever may manage sharing under `Permissions` may here, unless the
      role id is 0, which this version reads as "no role". */
  lemma AdminOfPermissionsPassesHere(projects: map<int, Project>, members: map<(int, int), ProjectMember>,
                                     roles: map<int, Role>, projectId: int, user: User)
    requires user.roleId != Some(0)
    ensures Permissions.EnsureProjectAdmin(projects, members, roles, projectId, user).Ok?
        ==> EnsureProjectAdmin(projects, roles, projectId, user).Ok?
  {
  }

  /** With role id 0 naming an "admin" role, a member passes `Permissions`
      but this version refuses. */
  lemma RoleIdZeroSplitsVersions(owner: int, user: User)
    requires owner != user.id && user.roleId == Some(0)
    ensures var projects := map[1 := Project(1, "p", None, None, owner, 0)];
            var members := map[(1, user.id) := ProjectMember(1, 1, user.id, "viewer", 0)];
            var roles := map[0 := Role(0, "admin", false)];
            Permissions.EnsureProjectAdmin(projects, members, roles, 1, user).Ok?
            && EnsureProjectAdmin(projects, roles, 1, user) == Err(403, "Only owner/admin can manage sharing")
  {
  }
}
