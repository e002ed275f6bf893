/** Organisations: create (name stripped, name and organisation number
    unique), partial update through the fields the request sets, delete,
    list and get. */
module Organizations {
  import opened Common
  import opened Models

  const NotFound: string := "Organization not found"

  /** The fields of a creation request. */
  datatype OrganizationCreateIn = OrganizationCreateIn(
    name: string, orgNumber: Option<string>, email: Option<string>, phone: Option<string>,
    address: Option<string>, city: Option<string>, country: Option<string>)

  /** The name or the organisation number of `o` is already taken by an
      organisation other than `except`. */
  predicate Clashes(orgs: map<int, Organization>, o: Organization, except: int)
    ensures (exists k :: k in orgs && k != except && orgs[k].name == o.name) ==> Clashes(orgs, o, except)
    ensures o.orgNumber.None?
            ==> (Clashes(orgs, o, except) <==> exists k :: k in orgs && k != except && orgs[k].name == o.name)
  {
    exists k :: k in orgs && k != except
                && (orgs[k].name == o.name || (o.orgNumber.Some? && orgs[k].orgNumber == o.orgNumber))
  }

  lemma StoreKeepsOrganizationsValid(orgs: map<int, Organization>, o: Organization)
    requires OrganizationsValid(orgs) && !Clashes(orgs, o, o.id)
    ensures OrganizationsValid(orgs[o.id := o])
  {
    var m := orgs[o.id := o];
    forall a, b | a in m && b in m && m[a].name == m[b].name ensures a == b {
      if a != o.id && b != o.id {
        assert m[a] == orgs[a] && m[b] == orgs[b];
      }
    }
    forall a, b | a in m && b in m && m[a].orgNumber.Some? && m[a].orgNumber == m[b].orgNumber ensures a == b {
      if a != o.id && b != o.id {
        assert m[a] == orgs[a] && m[b] == orgs[b];
      }
    }
  }

  /** Creates the organisation with the stripped name; a name or number
      already in use violates a unique constraint, the transaction is
      rolled back and the answer is 409. */
  method CreateOrganization(db: Database, payload: OrganizationCreateIn, now: int) returns (r: Result<Organization>)
    requires OrganizationsValid(db.organizations)
    modifies db`organizations
    ensures OrganizationsValid(db.organizations)
    ensures r.Err? ==> r == Err(409, "Organization already exists") && db.organizations == old(db.organizations)
    ensures r.Ok? ==>
      && r.value == Organization(r.value.id, PyStrip(payload.name), payload.orgNumber, payload.email, payload.phone,
                                 payload.address, payload.city, payload.country, now)
      && r.value.id !in old(db.organizations) && !Clashes(old(db.organizations), r.value, r.value.id)
      && db.organizations == old(db.organizations)[r.value.id := r.value]
    ensures r.Err? <==>
      Clashes(old(db.organizations),
              Organization(NewId(old(db.organizations).Keys), PyStrip(payload.name), payload.orgNumber, payload.email,
                           payload.phone, payload.address, payload.city, payload.country, now),
              NewId(old(db.organizations).Keys))
  {
    var o := Organization(NewId(db.organizations.Keys), PyStrip(payload.name), payload.orgNumber, payload.email,
                          payload.phone, payload.address, payload.city, payload.country, now);
    if Clashes(db.organizations, o, o.id) {
      return Err(409, "Organization already exists");
    }
    StoreKeepsOrganizationsValid(db.organizations, o);
    db.organizations := db.organizations[o.id := o];
    r := Ok(o);
  }

  /** The columns an update request may set. */
  datatype Field = Name | OrgNumber | Email | Phone | Address | City | Country

  /** The columns of an organisation, `name` among them (never `None` in a
      stored row). */
  function Columns(o: Organization): (c: map<Field, Option<string>>)
    ensures forall f: Field :: f in c
    ensures c[Name] == Some(o.name)
  {
    map f: Field | true :: Column(o, f)
  }

  function Column(o: Organization, f: Field): Option<string> {
    match f
    case Name => Some(o.name)
    case OrgNumber => o.orgNumber
    case Email => o.email
    case Phone => o.phone
    case Address => o.address
    case City => o.city
    case Country => o.country
  }

  /** The value field `f` has after the assignments `sets`, starting from
      `d`: the last value assigned to `f`, or `d` if none is. */
  function After(sets: seq<(Field, Option<string>)>, f: Field, d: Option<string>): Option<string>
    decreases |sets|
  {
    if |sets| == 0 then d
    else if sets[|sets| - 1].0 == f then sets[|sets| - 1].1
    else After(sets[..|sets| - 1], f, d)
  }

  /** A field the request does not set keeps its value. */
  lemma {:induction false} UnsetFieldUnchanged(sets: seq<(Field, Option<string>)>, f: Field, d: Option<string>)
    requires forall i :: 0 <= i < |sets| ==> sets[i].0 != f
    ensures After(sets, f, d) == d
    decreases |sets|
  {
    if |sets| > 0 {
      UnsetFieldUnchanged(sets[..|sets| - 1], f, d);
    }
  }

  /** A field the request sets once takes the value it gives. */
  lemma {:induction false} SetFieldTaken(sets: seq<(Field, Option<string>)>, i: int, d: Option<string>)
    requires 0 <= i < |sets|
    requires forall j :: 0 <= j < |sets| && j != i ==> sets[j].0 != sets[i].0
    ensures After(sets, sets[i].0, d) == sets[i].1
    decreases |sets|
  {
    if i < |sets| - 1 {
      SetFieldTaken(sets[..|sets| - 1], i, d);
    }
  }

  /** The columns of `o` once the assignments `sets` are made. */
  function Assigned(o: Organization, sets: seq<(Field, Option<string>)>): (c: map<Field, Option<string>>)
    ensures forall f: Field :: f in c && c[f] == After(sets, f, Columns(o)[f])
  {
    map f: Field | true :: After(sets, f, Columns(o)[f])
  }

  /** The organisation with the columns `c`. */
  function FromColumns(id: int, name: string, c: map<Field, Option<string>>, createdAt: int): Organization
    requires forall f: Field :: f in c
  {
    Organization(id, name, c[OrgNumber], c[Email], c[Phone], c[Address], c[City], c[Country], createdAt)
  }

  /** Assigns, one by one, the fields the request explicitly sets (`sets`,
      in the order of the request model), then commits.  A name set to null
      or a name or number taken by another organisation fail the commit:
      409, rolled back. */
  method UpdateOrganization(db: Database, orgId: int, sets: seq<(Field, Option<string>)>) returns (r: Result<Organization>)
    requires OrganizationsValid(db.organizations)
    modifies db`organizations
    ensures OrganizationsValid(db.organizations)
    ensures orgId !in old(db.organizations) ==> r == Err(404, NotFound)
    ensures r.Err? ==> db.organizations == old(db.organizations)
    ensures orgId in old(db.organizations) && After(sets, Name, Some(old(db.organizations)[orgId].name)).None?
        ==> r == Err(409, "Organization conflict")
    ensures r.Ok? ==>
      && orgId in old(db.organizations)
      && var before := Columns(old(db.organizations)[orgId]);
         && (forall f: Field :: Columns(r.value)[f] == After(sets, f, before[f]))
         && r.value.id == orgId && r.value.createdAt == old(db.organizations)[orgId].createdAt
         && !Clashes(old(db.organizations), r.value, orgId)
         && db.organizations == old(db.organizations)[orgId := r.value]
    ensures orgId in old(db.organizations) ==>
      var org := old(db.organizations)[orgId];
      var c := Assigned(org, sets);
      c[Name].Some? ==>
        var u := FromColumns(orgId, c[Name].value, c, org.createdAt);
        if Clashes(old(db.organizations), u, orgId) then r == Err(409, "Organization conflict")
        else r == Ok(u) && db.organizations == old(db.organizations)[orgId := u]
  {
    if orgId !in db.organizations {
      return Err(404, NotFound);
    }
    var org := db.organizations[orgId];
    var row := Columns(org);
    var i := 0;
    while i < |sets|
      invariant 0 <= i <= |sets|
      invariant forall f: Field :: f in row && row[f] == After(sets[..i], f, Columns(org)[f])
    {
      assert sets[..i + 1][..i] == sets[..i];
      row := row[sets[i].0 := sets[i].1];
      i := i + 1;
    }
    assert sets[..i] == sets;
    assert row == Assigned(org, sets);
    if row[Name].None? {
      return Err(409, "Organization conflict");
    }
    var updated := FromColumns(orgId, row[Name].value, row, org.createdAt);
    assert Columns(updated) == row;
    if Clashes(db.organizations, updated, orgId) {
      return Err(409, "Organization conflict");
    }
    StoreKeepsOrganizationsValid(db.organizations, updated);
    db.organizations := db.organizations[orgId := updated];
    r := Ok(updated);
  }

  function GetOrganization(orgs: map<int, Organization>, orgId: int): (r: Result<Organization>)
    ensures orgId !in orgs <==> r == Err(404, NotFound)
    ensures r.Ok? ==> r.value == orgs[orgId]
  {
    if orgId !in orgs then Err(404, NotFound) else Ok(orgs[orgId])
  }

  /** Every organisation (the query sets no order; key order here). */
  function ListOrganizations(orgs: map<int, Organization>): (r: seq<Organization>)
    ensures |r| == |orgs| && forall x :: x in r <==> exists k :: k in orgs && orgs[k] == x
  {
    TableRows(orgs)
  }

  datatype OrganizationDeleted = OrganizationDeleted(status: string, organizationId: int)

  /** The handler as written: a bulk `DELETE` on `organizations`, which
      runs none of the ORM cascades, so the organisation's users, projects
      and groups stay behind naming it. */
  method DeleteOrganizationAsWritten(db: Database, orgId: int) returns (r: Result<OrganizationDeleted>)
    requires OrganizationsValid(db.organizations)
    modifies db`organizations
    ensures OrganizationsValid(db.organizations)
    ensures orgId !in old(db.organizations) <==> r == Err(404, NotFound)
    ensures r.Ok? ==> r.value == OrganizationDeleted("deleted", orgId)
                      && db.organizations == old(db.organizations) - {orgId}
    ensures r.Err? ==> db.organizations == old(db.organizations)
  {
    if orgId !in db.organizations {
      return Err(404, NotFound);
    }
    var m := db.organizations - {orgId};
    assert forall k :: k in m ==> m[k] == db.organizations[k];
    db.organizations := m;
    r := Ok(OrganizationDeleted("deleted", orgId));
  }

  /** No user, project or group names organisation `orgId`. */
  predicate NothingNames(orgId: int, users: map<int, User>, projects: map<int, Project>, groups: map<int, Group>) {
    && (forall k :: k in users ==> users[k].organizationId != Some(orgId))
    && (forall k :: k in projects ==> projects[k].organizationId != Some(orgId))
    && (forall k :: k in groups ==> groups[k].organizationId != orgId)
  }

  /** After the bulk delete a user of the organisation still names it. */
  lemma BulkDeleteLeavesMembers(o: Organization, u: User)
    requires u.organizationId == Some(o.id)
    ensures var users := map[u.id := u];
            !NothingNames(o.id, users, map[], map[])
  {
    assert u.id in map[u.id := u];
  }

  /** The users of organisation `orgId`. */
  function UsersOf(users: map<int, User>, orgId: int): (r: set<int>)
    ensures forall k :: k in r <==> k in users && users[k].organizationId == Some(orgId)
  {
    set k | k in users && users[k].organizationId == Some(orgId)
  }

  /** The groups of organisation `orgId`. */
  function GroupsOf(groups: map<int, Group>, orgId: int): (r: set<int>)
    ensures forall k :: k in r <==> k in groups && groups[k].organizationId == orgId
  {
    set k | k in groups && groups[k].organizationId == orgId
  }

  /** The projects of organisation `orgId`, and those owned by the users
      `us`. */
  function ProjectsOf(projects: map<int, Project>, orgId: int, us: set<int>): (r: set<int>)
    ensures forall k :: k in r <==> k in projects && (projects[k].organizationId == Some(orgId) || projects[k].ownerUserId in us)
  {
    set k | k in projects && (projects[k].organizationId == Some(orgId) || projects[k].ownerUserId in us)
  }

  /** What deleting organisation `orgId` cascades to: the projects of the
      organisation and of its users, then its users (with their tokens and
      memberships), then its groups (with their memberships). */
  method DeleteContents(db: Database, orgId: int)
    requires GroupsValid(db.groups)
    requires UsersValid(db.users) && TokensValid(db.tokens, db.users)
    requires GroupMembersValid(db.groupMembers, db.groups, db.users)
    requires ProjectMembersValid(db.projectMembers, db.projects, db.users)
    requires ProjectsValid(db.projects, db.users)
    requires RequirementsValid(db.requirements, db.projects)
    requires RequestLogsValid(db.requestLogs, db.projects)
    modifies db`groups, db`users, db`tokens, db`groupMembers, db`projectMembers,
             db`projects, db`requestLogs, db`requirements
    ensures GroupsValid(db.groups)
    ensures UsersValid(db.users) && TokensValid(db.tokens, db.users)
    ensures GroupMembersValid(db.groupMembers, db.groups, db.users)
    ensures ProjectMembersValid(db.projectMembers, db.projects, db.users)
    ensures ProjectsValid(db.projects, db.users)
    ensures RequirementsValid(db.requirements, db.projects)
    ensures RequestLogsValid(db.requestLogs, db.projects)
    ensures db.users == Without(old(db.users), UsersOf(old(db.users), orgId))
    ensures db.groups == Without(old(db.groups), GroupsOf(old(db.groups), orgId))
    ensures var us := UsersOf(old(db.users), orgId);
            var ps := ProjectsOf(old(db.projects), orgId, us);
            var gs := GroupsOf(old(db.groups), orgId);
            && db.projects == Without(old(db.projects), ps)
            && db.tokens == Without(old(db.tokens), us)
            && db.groupMembers == PairsOutside(old(db.groupMembers), gs, us)
            && db.projectMembers == PairsOutside(old(db.projectMembers), ps, us)
            && db.requestLogs == LogsOutside(old(db.requestLogs), ps)
            && db.requirements == RequirementsOutside(old(db.requirements), ps)
  {
    var us := UsersOf(db.users, orgId);
    var ps := ProjectsOf(db.projects, orgId, us);
    var gs := GroupsOf(db.groups, orgId);
    ghost var groupMembers, projectMembers := db.groupMembers, db.projectMembers;
    DeleteProjects(db, ps);
    DeleteUsers(db, us);
    DeleteGroups(db, gs);
    PairsOutsideTwice(projectMembers, ps, {}, {}, us);
    PairsOutsideTwice(groupMembers, {}, us, gs, {});
    assert ps + {} == ps && {} + us == us && {} + gs == gs && us + {} == us;
  }

  /** The handler with the cascades `Organization` declares: its users
      (with everything a user cascades to), its projects and its groups are
      deleted with it. */
  method DeleteOrganization(db: Database, orgId: int) returns (r: Result<OrganizationDeleted>)
    requires OrganizationsValid(db.organizations) && GroupsValid(db.groups)
    requires UsersValid(db.users) && TokensValid(db.tokens, db.users)
    requires GroupMembersValid(db.groupMembers, db.groups, db.users)
    requires ProjectMembersValid(db.projectMembers, db.projects, db.users)
    requires ProjectsValid(db.projects, db.users)
    requires RequirementsValid(db.requirements, db.projects)
    requires RequestLogsValid(db.requestLogs, db.projects)
    modifies db`organizations, db`groups, db`users, db`tokens, db`groupMembers, db`projectMembers,
             db`projects, db`requestLogs, db`requirements
    ensures OrganizationsValid(db.organizations) && GroupsValid(db.groups)
    ensures UsersValid(db.users) && TokensValid(db.tokens, db.users)
    ensures GroupMembersValid(db.groupMembers, db.groups, db.users)
    ensures ProjectMembersValid(db.projectMembers, db.projects, db.users)
    ensures ProjectsValid(db.projects, db.users)
    ensures RequirementsValid(db.requirements, db.projects)
    ensures RequestLogsValid(db.requestLogs, db.projects)
    ensures orgId !in old(db.organizations) <==> r == Err(404, NotFound)
    ensures r.Ok? ==>
      && r.value == OrganizationDeleted("deleted", orgId)
      && db.organizations == Without(old(db.organizations), {orgId})
      && db.users == Without(old(db.users), UsersOf(old(db.users), orgId))
      && db.groups == Without(old(db.groups), GroupsOf(old(db.groups), orgId))
      && NothingNames(orgId, db.users, db.projects, db.groups)
      && var us := UsersOf(old(db.users), orgId);
         var ps := ProjectsOf(old(db.projects), orgId, us);
         var gs := GroupsOf(old(db.groups), orgId);
         && db.projects == Without(old(db.projects), ps)
         && db.tokens == Without(old(db.tokens), us)
         && db.groupMembers == PairsOutside(old(db.groupMembers), gs, us)
         && db.projectMembers == PairsOutside(old(db.projectMembers), ps, us)
         && db.requestLogs == LogsOutside(old(db.requestLogs), ps)
         && db.requirements == RequirementsOutside(old(db.requirements), ps)
    ensures r.Err? ==> db.organizations == old(db.organizations) && db.users == old(db.users)
                       && db.projects == old(db.projects) && db.groups == old(db.groups)
                       && db.tokens == old(db.tokens) && db.groupMembers == old(db.groupMembers)
                       && db.projectMembers == old(db.projectMembers)
                       && db.requestLogs == old(db.requestLogs) && db.requirements == old(db.requirements)
  {
    if orgId !in db.organizations {
      return Err(404, NotFound);
    }
    DeleteContents(db, orgId);
    db.organizations := Without(db.organizations, {orgId});
    r := Ok(OrganizationDeleted("deleted", orgId));
  }
}
