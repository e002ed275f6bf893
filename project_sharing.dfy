/** Sharing a project with individual users: the `project_members` rows of
    one project, added or re-levelled by e-mail address, listed and removed
    by the project's owner or an "admin". */
module ProjectSharing {
  import opened Common
  import opened Models
  import Sorting
  import Permissions

  const NotOwnerOrAdmin: string := "Only owner/admin can manage members"

  /** The caller owns the project or holds the role named "admin". */
  predicate OwnerOrAdmin(project: Project, roles: map<int, Role>, caller: User)
    ensures project.ownerUserId == caller.id ==> OwnerOrAdmin(project, roles, caller)
    ensures OwnerOrAdmin(project, roles, caller) && project.ownerUserId != caller.id
            ==> caller.roleId.Some? && caller.roleId.value in roles && roles[caller.roleId.value].name == "admin"
  {
    project.ownerUserId == caller.id
    || (Permissions.RoleOf(roles, caller).Some? && Permissions.RoleOf(roles, caller).value.name == "admin")
  }

  /** `ensure_owner_or_admin` as written: it reads the caller's lazy
      `role` even when the caller owns the project, so a caller with a role
      id gets a 500; otherwise only the owner passes. */
  function OwnerOrAdminAsWritten(project: Project, caller: User): (r: Result<bool>)
    ensures caller.roleId.Some? <==> r == Err(500, MissingGreenletDetail)
    ensures r.Ok? ==> r.value == (project.ownerUserId == caller.id)
  {
    var role := Permissions.LazyRoleAsWritten(caller);
    if role.Err? then Err(500, MissingGreenletDetail)
    else Ok(project.ownerUserId == caller.id)  // the read gave no role
  }

  /** The owner of a project, stored with the role id the database
      demands, may manage its members, but is answered 500 as written. */
  lemma OwnerRefusedAsWritten(project: Project, roles: map<int, Role>, caller: User)
    requires project.ownerUserId == caller.id && MeetsNotNull(caller)
    ensures OwnerOrAdmin(project, roles, caller)
    ensures OwnerOrAdminAsWritten(project, caller) == Err(500, MissingGreenletDetail)
  {
  }

  /** The requested level as it is checked and stored: lower-cased, then
      stripped of surrounding white space. */
  function NormaliseLevel(s: string): string {
    PyStrip(Lower(s))
  }

  /** Normalising twice changes nothing more. */
  lemma NormaliseLevelIdempotent(s: string)
    ensures NormaliseLevel(NormaliseLevel(s)) == NormaliseLevel(s)
  {
    var t := PyStrip(Lower(s));
    LowerOfStripped(Lower(s));
    TrimIdempotent(Lower(s), PySpace);
  }

  /** Lower-casing a stripped string of lower-case letters changes nothing. */
  lemma LowerOfStripped(s: string)
    requires s == Lower(s)
    ensures Lower(PyStrip(s)) == PyStrip(s)
  {
    var e := TrimEnd(s, PySpace);
    var t := TrimStart(e, PySpace);
    assert PyStrip(s) == t;
    assert t == s[|e| - |t|..|e|];
    LowerOfLowerSlice(s, |e| - |t|, |e|);
  }

  /** What an accepted request writes: the target user and the level. */
  datatype Grant = Grant(targetId: int, level: string)

  /** The guards of the add handler, in their order: project, caller,
      target address, organisation, level. */
  function AddMemberGuard(projects: map<int, Project>, users: map<int, User>, roles: map<int, Role>,
                          projectId: int, caller: User, email: string, accessLevel: string): (r: Result<Grant>)
    ensures r.Ok? ==>
      && projectId in projects && OwnerOrAdmin(projects[projectId], roles, caller)
      && r.value.targetId in users && users[r.value.targetId].email == email
      && users[r.value.targetId].organizationId == projects[projectId].organizationId
      && r.value.level == NormaliseLevel(accessLevel) && IsLevel(r.value.level)
  {
    if projectId !in projects then Err(404, "Project not found")
    else if !OwnerOrAdmin(projects[projectId], roles, caller) then Err(403, NotOwnerOrAdmin)
    else
      match FindUserByEmail(users, email)
      case None => Err(404, "User not found")
      case Some(t) =>
        if users[t].organizationId != projects[projectId].organizationId then
          Err(400, "User is not in same organization")
        else if !IsLevel(NormaliseLevel(accessLevel)) then Err(400, "Invalid access_level (viewer|editor)")
        else Ok(Grant(t, NormaliseLevel(accessLevel)))
  }

  /** Each refusal of the add handler, and the order in which they are
      checked: an unknown address is reported before a bad level. */
  lemma AddMemberRefusals(projects: map<int, Project>, users: map<int, User>, roles: map<int, Role>,
                          projectId: int, caller: User, email: string, accessLevel: string)
    ensures projectId !in projects
        ==> AddMemberGuard(projects, users, roles, projectId, caller, email, accessLevel) == Err(404, "Project not found")
    ensures projectId in projects && !OwnerOrAdmin(projects[projectId], roles, caller)
        ==> AddMemberGuard(projects, users, roles, projectId, caller, email, accessLevel) == Err(403, NotOwnerOrAdmin)
    ensures projectId in projects && OwnerOrAdmin(projects[projectId], roles, caller) && !HasEmail(users, email)
        ==> AddMemberGuard(projects, users, roles, projectId, caller, email, accessLevel) == Err(404, "User not found")
    ensures AddMemberGuard(projects, users, roles, projectId, caller, email, accessLevel) == Err(400, "User is not in same organization")
        ==> exists k :: k in users && users[k].email == email && users[k].organizationId != projects[projectId].organizationId
    ensures AddMemberGuard(projects, users, roles, projectId, caller, email, accessLevel) == Err(400, "Invalid access_level (viewer|editor)")
        ==> !IsLevel(NormaliseLevel(accessLevel))
  {
  }

  /** With unique addresses the add request is accepted exactly when every
      check passes. */
  lemma AddMemberAcceptedIff(projects: map<int, Project>, users: map<int, User>, roles: map<int, Role>,
                             projectId: int, caller: User, email: string, accessLevel: string)
    requires EmailsUnique(users)
    ensures AddMemberGuard(projects, users, roles, projectId, caller, email, accessLevel).Ok?
        <==> projectId in projects && OwnerOrAdmin(projects[projectId], roles, caller)
             && (exists k :: k in users && users[k].email == email
                            && users[k].organizationId == projects[projectId].organizationId)
             && IsLevel(NormaliseLevel(accessLevel))
  {
    if projectId in projects
       && exists k :: k in users && users[k].email == email && users[k].organizationId == projects[projectId].organizationId
    {
      var k :| k in users && users[k].email == email && users[k].organizationId == projects[projectId].organizationId;
      FindUserByEmailIsTheAddressee(users, email, k);
    }
  }

  /** The row an accepted request leaves on the project: the existing row
      of that user with its level replaced, or a new row with a fresh id. */
  function GrantedRow(members: map<(int, int), ProjectMember>, projectId: int, g: Grant, now: int): (r: ProjectMember)
    ensures r.projectId == projectId || (projectId, g.targetId) in members
    ensures r.accessLevel == g.level
    ensures (projectId, g.targetId) in members ==> r == members[(projectId, g.targetId)].(accessLevel := g.level)
    ensures (projectId, g.targetId) !in members ==>
      r.projectId == projectId && r.userId == g.targetId && r.id !in ProjectMemberIds(members) && r.createdAt == now
  {
    var key := (projectId, g.targetId);
    if key in members then members[key].(accessLevel := g.level)
    else ProjectMember(NewId(ProjectMemberIds(members)), projectId, g.targetId, g.level, now)
  }

  /** Writing the granted row keeps the member table valid: it is keyed by
      its pair, its level is "viewer" or "editor", and both ends exist. */
  lemma GrantKeepsMembersValid(members: map<(int, int), ProjectMember>, projects: map<int, Project>,
                               users: map<int, User>, projectId: int, g: Grant, now: int)
    requires ProjectMembersValid(members, projects, users)
    requires projectId in projects && g.targetId in users && IsLevel(g.level)
    ensures GrantedRow(members, projectId, g, now).projectId == projectId
    ensures GrantedRow(members, projectId, g, now).userId == g.targetId
    ensures ProjectMembersValid(members[(projectId, g.targetId) := GrantedRow(members, projectId, g, now)], projects, users)
  {
  }

  /** Adds the user with address `email` to the project with the normalised
      level, or changes the level of the row that user already has. */
  method AddProjectMember(db: Database, projectId: int, caller: User, email: string,
                          accessLevel: string, now: int) returns (r: Result<ProjectMember>)
    requires ProjectMembersValid(db.projectMembers, db.projects, db.users)
    modifies db`projectMembers
    ensures ProjectMembersValid(db.projectMembers, db.projects, db.users)
    ensures var g := AddMemberGuard(db.projects, db.users, db.roles, projectId, caller, email, accessLevel);
      && (g.Err? ==> r == Err(g.status, g.detail) && db.projectMembers == old(db.projectMembers))
      && (g.Ok? ==> var row := GrantedRow(old(db.projectMembers), projectId, g.value, now);
                    r == Ok(row) && db.projectMembers == old(db.projectMembers)[(projectId, g.value.targetId) := row])
  {
    var g := AddMemberGuard(db.projects, db.users, db.roles, projectId, caller, email, accessLevel);
    if g.Err? {
      return Err(g.status, g.detail);
    }
    var row := GrantedRow(db.projectMembers, projectId, g.value, now);
    GrantKeepsMembersValid(db.projectMembers, db.projects, db.users, projectId, g.value, now);
    db.projectMembers := db.projectMembers[(projectId, g.value.targetId) := row];
    r := Ok(row);
  }

  /** The member rows of one project, ordered by user id (the query sets no
      order). */
  function MembersOf(members: map<(int, int), ProjectMember>, projectId: int): (rows: seq<ProjectMember>)
    requires ProjectMembersKeyed(members)
    ensures forall i :: 0 <= i < |rows| ==>
      (projectId, rows[i].userId) in members && members[(projectId, rows[i].userId)] == rows[i]
    ensures forall i, j :: 0 <= i < j < |rows| ==> rows[i].userId < rows[j].userId
  {
    PairRowsAt(members, projectId, Sorting.Ascending(UsersOn(members, projectId)))
  }

  /** Every row of the project is listed. */
  lemma MembersOfComplete(members: map<(int, int), ProjectMember>, projectId: int, k: (int, int))
    requires ProjectMembersKeyed(members)
    requires k in members && k.0 == projectId
    ensures members[k] in MembersOf(members, projectId)
  {
    var ordered := Sorting.Ascending(UsersOn(members, projectId));
    assert k == (projectId, k.1);
    assert k.1 in ordered;
    var i :| 0 <= i < |ordered| && ordered[i] == k.1;
    assert MembersOf(members, projectId)[i] == members[k];
  }

  /** Lists the project's member rows: owner or "admin" only. */
  function ListProjectMembers(projects: map<int, Project>, roles: map<int, Role>,
                              members: map<(int, int), ProjectMember>, projectId: int, caller: User)
    : (r: Result<seq<ProjectMember>>)
    requires ProjectMembersKeyed(members)
    ensures projectId !in projects ==> r == Err(404, "Project not found")
    ensures projectId in projects && !OwnerOrAdmin(projects[projectId], roles, caller) ==> r == Err(403, NotOwnerOrAdmin)
    ensures r.Ok? <==> projectId in projects && OwnerOrAdmin(projects[projectId], roles, caller)
    ensures r.Ok? ==> forall x :: x in r.value <==> exists k :: k in members && k.0 == projectId && members[k] == x
  {
    if projectId !in projects then Err(404, "Project not found")
    else if !OwnerOrAdmin(projects[projectId], roles, caller) then Err(403, NotOwnerOrAdmin)
    else
      var rows := MembersOf(members, projectId);
      assert forall x :: x in rows ==> exists k :: k in members && k.0 == projectId && members[k] == x by {
        forall x | x in rows ensures exists k :: k in members && k.0 == projectId && members[k] == x {
          var i :| 0 <= i < |rows| && rows[i] == x;
          assert members[(projectId, rows[i].userId)] == x;
        }
      }
      Ok(rows)
  }

  /** The body of a successful removal. */
  datatype Removal = Removal(status: string, projectId: int, userId: int)

  /** Deletes the (project, user) row if there is one; succeeds either way. */
  method RemoveProjectMember(db: Database, projectId: int, userId: int, caller: User) returns (r: Result<Removal>)
    requires ProjectMembersValid(db.projectMembers, db.projects, db.users)
    modifies db`projectMembers
    ensures ProjectMembersValid(db.projectMembers, db.projects, db.users)
    ensures projectId !in db.projects ==> r == Err(404, "Project not found")
    ensures projectId in db.projects && !OwnerOrAdmin(db.projects[projectId], db.roles, caller)
        ==> r == Err(403, NotOwnerOrAdmin)
    ensures r.Ok? <==> projectId in db.projects && OwnerOrAdmin(db.projects[projectId], db.roles, caller)
    ensures r.Ok? ==> r.value == Removal("removed", projectId, userId)
    ensures r.Ok? ==> db.projectMembers == old(db.projectMembers) - {(projectId, userId)}
    ensures r.Err? ==> db.projectMembers == old(db.projectMembers)
  {
    if projectId !in db.projects {
      return Err(404, "Project not found");
    }
    if !OwnerOrAdmin(db.projects[projectId], db.roles, caller) {
      return Err(403, NotOwnerOrAdmin);
    }
    db.projectMembers := db.projectMembers - {(projectId, userId)};
    r := Ok(Removal("removed", projectId, userId));
  }

  /** Removing twice leaves what removing once left. */
  lemma RemoveIdempotent(m: map<(int, int), ProjectMember>, k: (int, int))
    ensures (m - {k}) - {k} == m - {k}
  {
  }

  /** Removal leaves every other row as it was. */
  lemma RemoveKeepsOthers(m: map<(int, int), ProjectMember>, k: (int, int), j: (int, int))
    requires j != k
    ensures j in m - {k} <==> j in m
    ensures j in m ==> (m - {k})[j] == m[j]
  {
  }
}
