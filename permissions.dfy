/** The project guards that the request handlers call: view or edit access
    to a project, and the right to manage its sharing.  They only read the
    `projects`, `project_members` and `roles` tables. */
module Permissions {
  import opened Common
  import opened Models

  /** The error of the guard that lets a user see or edit a project. */
  const ProjectNotFound: Result<Project> := Err(404, "Project not found")
  const NoAccess: Result<Project> := Err(403, "No access to this project")
  const NotEnough: Result<Project> := Err(403, "Not enough permissions")
  const NotAdmin: Result<Project> := Err(403, "Only owner/admin can manage sharing")

  /** Returns the project when `userId` may see it (`allowView`) or edit it:
      the owner always may; anyone else needs a member row, and for editing
      that row's level must be exactly "editor". */
  function EnsureProjectAccess(projects: map<int, Project>, members: map<(int, int), ProjectMember>,
                               projectId: int, userId: int, allowView: bool): (r: Result<Project>)
    ensures r.Ok? ==> projectId in projects && r.value == projects[projectId]
    ensures r.Err? ==> r.status == 404 || r.status == 403
  {
    if projectId !in projects then ProjectNotFound
    else if projects[projectId].ownerUserId == userId then Ok(projects[projectId])
    else if (projectId, userId) !in members then NoAccess
    else if !allowView && members[(projectId, userId)].accessLevel != "editor" then NotEnough
    else Ok(projects[projectId])
  }

  /** The role a user's `role` relationship loads, if any. */
  function RoleOf(roles: map<int, Role>, user: User): (r: Option<Role>)
    ensures r.Some? <==> user.roleId.Some? && user.roleId.value in roles
    ensures r.Some? ==> r.value in roles.Values
  {
    if user.roleId.Some? && user.roleId.value in roles then Some(roles[user.roleId.value]) else None
  }

  /** Reading `user.role` as the handlers do: the user comes from a plain
      select, which does not load the relationship, so a set `role_id` needs
      a query that attribute access cannot run in the async session; a null
      `role_id` gives `None` without one. */
  function LazyRoleAsWritten(user: User): (r: Result<Option<Role>>)
    ensures r.Err? <==> user.roleId.Some?
    ensures r.Err? ==> r == Err(500, MissingGreenletDetail)
    ensures r.Ok? ==> r.value.None?
  {
    if user.roleId.Some? then Err(500, MissingGreenletDetail) else Ok(None)
  }

  /** A user the database accepts always has a role id, so reading the
      relationship fails for every stored user. */
  lemma StoredUserRoleFailsAsWritten(user: User)
    requires MeetsNotNull(user)
    ensures LazyRoleAsWritten(user) == Err(500, MissingGreenletDetail)
  {
  }

  /** View access first; then the caller must own the project or hold the
      role named "admin". */
  function EnsureProjectAdmin(projects: map<int, Project>, members: map<(int, int), ProjectMember>,
                              roles: map<int, Role>, projectId: int, user: User): (r: Result<Project>)
    ensures r.Ok? ==> EnsureProjectAccess(projects, members, projectId, user.id, true).Ok?
  {
    var viewed := EnsureProjectAccess(projects, members, projectId, user.id, true);
    if viewed.Err? then viewed
    else
      var isOwner := viewed.value.ownerUserId == user.id;
      var role := RoleOf(roles, user);
      var isAdmin := role.Some? && role.value.name == "admin";
      if !(isOwner || isAdmin) then NotAdmin else viewed
  }

  /** `ensure_project_admin` as written: after the view check it reads the
      role through `getattr(user, "role", None)`, whose default covers a
      missing attribute but not the failed load.  Only an owner without a
      role id gets through. */
  function EnsureProjectAdminAsWritten(projects: map<int, Project>, members: map<(int, int), ProjectMember>,
                                       projectId: int, user: User): (r: Result<Project>)
    ensures var viewed := EnsureProjectAccess(projects, members, projectId, user.id, true);
            viewed.Ok? && user.roleId.Some? ==> r == Err(500, MissingGreenletDetail)
    ensures r.Ok? ==> user.roleId.None? && r == EnsureProjectAccess(projects, members, projectId, user.id, true)
                      && r.value.ownerUserId == user.id
  {
    var viewed := EnsureProjectAccess(projects, members, projectId, user.id, true);
    if viewed.Err? then viewed
    else
      var isOwner := viewed.value.ownerUserId == user.id;
      var role := LazyRoleAsWritten(user);
      if role.Err? then Err(500, MissingGreenletDetail)
      else if !isOwner then NotAdmin
      else viewed
  }

  // ---------------------------------------------------------------------
  // What the guards decide
  // ---------------------------------------------------------------------

  /** Access is granted exactly to the owner and to members, and editing
      additionally needs the exact level "editor". */
  lemma AccessGrantedIff(projects: map<int, Project>, members: map<(int, int), ProjectMember>,
                         projectId: int, userId: int, allowView: bool)
    ensures EnsureProjectAccess(projects, members, projectId, userId, allowView).Ok?
        <==> projectId in projects
             && (projects[projectId].ownerUserId == userId
                 || ((projectId, userId) in members
                     && (allowView || members[(projectId, userId)].accessLevel == "editor")))
  {
  }

  /** A missing project is reported as 404 whatever else holds. */
  lemma UnknownProjectIsNotFound(projects: map<int, Project>, members: map<(int, int), ProjectMember>,
                                 roles: map<int, Role>, projectId: int, user: User, allowView: bool)
    requires projectId !in projects
    ensures EnsureProjectAccess(projects, members, projectId, user.id, allowView) == Err(404, "Project not found")
    ensures EnsureProjectAdmin(projects, members, roles, projectId, user) == Err(404, "Project not found")
  {
  }

  /** The owner may view and edit without any member row. */
  lemma OwnerAlwaysAllowed(projects: map<int, Project>, members: map<(int, int), ProjectMember>,
                           projectId: int, userId: int, allowView: bool)
    requires projectId in projects && projects[projectId].ownerUserId == userId
    ensures EnsureProjectAccess(projects, members, projectId, userId, allowView) == Ok(projects[projectId])
  {
  }

  /** A non-owner without a member row is refused with 403 "No access". */
  lemma NonMemberRefused(projects: map<int, Project>, members: map<(int, int), ProjectMember>,
                         projectId: int, userId: int, allowView: bool)
    requires projectId in projects && projects[projectId].ownerUserId != userId
    requires (projectId, userId) !in members
    ensures EnsureProjectAccess(projects, members, projectId, userId, allowView) == Err(403, "No access to this project")
  {
  }

  /** For editing, a member's level must equal "editor" character for
      character; any other level gives 403 "Not enough permissions". */
  lemma EditNeedsExactEditor(projects: map<int, Project>, members: map<(int, int), ProjectMember>,
                             projectId: int, userId: int)
    requires projectId in projects && projects[projectId].ownerUserId != userId
    requires (projectId, userId) in members
    ensures EnsureProjectAccess(projects, members, projectId, userId, false).Ok?
        <==> members[(projectId, userId)].accessLevel == "editor"
    ensures members[(projectId, userId)].accessLevel != "editor"
        ==> EnsureProjectAccess(projects, members, projectId, userId, false) == Err(403, "Not enough permissions")
  {
  }

  /** A member row with level "Editor" does not grant editing. */
  lemma CapitalisedEditorRefused(owner: int, userId: int)
    requires owner != userId
    ensures var projects := map[1 := Project(1, "p", None, None, owner, 0)];
            var members := map[(1, userId) := ProjectMember(1, 1, userId, "Editor", 0)];
            EnsureProjectAccess(projects, members, 1, userId, false) == Err(403, "Not enough permissions")
  {
  }

  /** Whoever may edit may also view. */
  lemma EditImpliesView(projects: map<int, Project>, members: map<(int, int), ProjectMember>,
                        projectId: int, userId: int)
    ensures EnsureProjectAccess(projects, members, projectId, userId, false).Ok?
        ==> EnsureProjectAccess(projects, members, projectId, userId, true).Ok?
  {
  }

  /** Managing sharing is granted exactly to the owner, and to a member
      whose role is named "admin". */
  lemma AdminGrantedIff(projects: map<int, Project>, members: map<(int, int), ProjectMember>,
                        roles: map<int, Role>, projectId: int, user: User)
    ensures EnsureProjectAdmin(projects, members, roles, projectId, user).Ok?
        <==> projectId in projects
             && (projects[projectId].ownerUserId == user.id
                 || ((projectId, user.id) in members
                     && RoleOf(roles, user).Some? && RoleOf(roles, user).value.name == "admin"))
  {
  }

  /** Whoever the intended guard admits, stored with the role id the
      database demands, is answered 500 as written. */
  lemma ProjectAdminRefusedAsWritten(projects: map<int, Project>, members: map<(int, int), ProjectMember>,
                                     roles: map<int, Role>, projectId: int, user: User)
    requires EnsureProjectAdmin(projects, members, roles, projectId, user).Ok? && MeetsNotNull(user)
    ensures EnsureProjectAdminAsWritten(projects, members, projectId, user) == Err(500, MissingGreenletDetail)
  {
  }

  /** An "admin" who neither owns the project nor is a member of it is
      refused, by the view check that comes first. */
  lemma AdminWithoutMembershipRefused(projects: map<int, Project>, members: map<(int, int), ProjectMember>,
                                      roles: map<int, Role>, projectId: int, user: User)
    requires projectId in projects && projects[projectId].ownerUserId != user.id
    requires (projectId, user.id) !in members
    ensures EnsureProjectAdmin(projects, members, roles, projectId, user) == Err(403, "No access to this project")
  {
  }
}
