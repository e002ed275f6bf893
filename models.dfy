/** The tables of the application as in-memory maps, the uniqueness
    constraints and defaults they declare, and the cascades their
    relationships declare.  A handler runs as one transaction on a
    `Database`; the store invariant `Valid` collects what every handler
    keeps. */
module Models {
  import opened Common
  import Sorting

  datatype Organization = Organization(
    id: int, name: string, orgNumber: Option<string>, email: Option<string>,
    phone: Option<string>, address: Option<string>, city: Option<string>,
    country: Option<string>, createdAt: int)

  datatype Group = Group(id: int, organizationId: int, name: string, createdAt: int)

  datatype GroupMember = GroupMember(id: int, groupId: int, userId: int, createdAt: int)

  datatype ProjectMember = ProjectMember(
    id: int, projectId: int, userId: int, accessLevel: string, createdAt: int)

  datatype Role = Role(id: int, name: string, isAdmin: bool)

  /** `name` and `roleId` are optional so that a row missing them can be
      written down; `MeetsNotNull` says when the database takes it. */
  datatype User = User(
    id: int, email: string, hashedPassword: string, name: Option<string>,
    tel: Option<string>, address: Option<string>, city: Option<string>,
    country: Option<string>, roleId: Option<int>, organizationId: Option<int>,
    createdAt: int)

  datatype Requirement = Requirement(
    id: int, projectId: int, title: string, description: string,
    acceptanceCriteria: Option<string>, source: string, externalId: Option<string>,
    createdAt: int)

  /** A token row is keyed by its user: a user holds at most one token. */
  datatype Token = Token(userId: int, token: string, expiresAt: int)

  datatype Project = Project(
    id: int, name: string, description: Option<string>, organizationId: Option<int>,
    ownerUserId: int, createdAt: int)

  datatype RequestLog = RequestLog(
    id: int, projectId: int, endpoint: string, inputText: string, outputText: string,
    createdAt: int)

  /** The test-case record with the fields the handlers read and write. */
  datatype TestCase = TestCase(
    id: int, projectId: int, requirementId: Option<int>, title: string,
    description: Option<string>, steps: Option<string>, preconditions: Option<string>,
    expectedResult: Option<string>, priority: Option<string>, status: Option<string>,
    createdAt: int)

  /** Column default of `ProjectMember.access_level`. */
  const DefaultAccessLevel: string := "viewer"

  /** The detail of the 500 answer to an `IntegrityError` that no handler
      catches: the debug exception handler returns the traceback as plain
      text, and the transaction is not committed. */
  const IntegrityErrorDetail: string := "sqlalchemy.exc.IntegrityError"

  /** The detail of the 500 answer when a handler reads an attribute that
      the async session would have to load on the spot (a relationship not
      loaded with its row, or a column expired by a rollback): SQLAlchemy
      raises `MissingGreenlet` and the debug exception handler answers with
      the traceback. */
  const MissingGreenletDetail: string := "sqlalchemy.exc.MissingGreenlet"

  /** The detail of the 500 answer when a handler reads a field its
      request model does not declare. */
  const AttributeErrorDetail: string := "AttributeError"

  /** Column default of `Requirement.source`. */
  const DefaultRequirementSource: string := "manual"

  /** The levels the sharing handler accepts and stores. */
  predicate IsLevel(l: string) {
    l == "viewer" || l == "editor"
  }

  lemma DefaultAccessLevelIsLevel()
    ensures IsLevel(DefaultAccessLevel)
  {
  }

  // ---------------------------------------------------------------------
  // Keys agree with the stored ids
  // ---------------------------------------------------------------------

  predicate OrganizationsKeyed(m: map<int, Organization>) { forall k :: k in m ==> m[k].id == k }
  predicate GroupsKeyed(m: map<int, Group>) { forall k :: k in m ==> m[k].id == k }
  predicate RolesKeyed(m: map<int, Role>) { forall k :: k in m ==> m[k].id == k }
  predicate UsersKeyed(m: map<int, User>) { forall k :: k in m ==> m[k].id == k }
  predicate TokensKeyed(m: map<int, Token>) { forall k :: k in m ==> m[k].userId == k }
  predicate ProjectsKeyed(m: map<int, Project>) { forall k :: k in m ==> m[k].id == k }
  predicate RequirementsKeyed(m: map<int, Requirement>) { forall k :: k in m ==> m[k].id == k }
  predicate TestCasesKeyed(m: map<int, TestCase>) { forall k :: k in m ==> m[k].id == k }
  predicate RequestLogsKeyed(m: map<int, RequestLog>) { forall k :: k in m ==> m[k].id == k }

  /** A membership row is filed under its (group, user) pair. */
  predicate GroupMembersKeyed(m: map<(int, int), GroupMember>) {
    forall k :: k in m ==> m[k].groupId == k.0 && m[k].userId == k.1
  }

  /** A project member row is filed under its (project, user) pair. */
  predicate ProjectMembersKeyed(m: map<(int, int), ProjectMember>) {
    forall k :: k in m ==> m[k].projectId == k.0 && m[k].userId == k.1
  }

  // ---------------------------------------------------------------------
  // Uniqueness constraints
  // ---------------------------------------------------------------------

  predicate OrganizationNamesUnique(m: map<int, Organization>) {
    forall a, b :: a in m && b in m && m[a].name == m[b].name ==> a == b
  }

  /** `org_number` is unique among the organisations that have one. */
  predicate OrganizationNumbersUnique(m: map<int, Organization>) {
    forall a, b :: a in m && b in m && m[a].orgNumber.Some? && m[a].orgNumber == m[b].orgNumber ==> a == b
  }

  predicate GroupNamesUnique(m: map<int, Group>) {
    forall a, b :: a in m && b in m && m[a].organizationId == m[b].organizationId && m[a].name == m[b].name ==> a == b
  }

  predicate RoleNamesUnique(m: map<int, Role>) {
    forall a, b :: a in m && b in m && m[a].name == m[b].name ==> a == b
  }

  predicate EmailsUnique(m: map<int, User>) {
    forall a, b :: a in m && b in m && m[a].email == m[b].email ==> a == b
  }

  predicate TokenValuesUnique(m: map<int, Token>) {
    forall a, b :: a in m && b in m && m[a].token == m[b].token ==> a == b
  }

  /** The (project, title) constraint that the test-case handler relies on. */
  predicate TestCaseTitlesUnique(m: map<int, TestCase>) {
    forall a, b :: a in m && b in m && m[a].projectId == m[b].projectId && m[a].title == m[b].title ==> a == b
  }

  predicate LevelsValid(m: map<(int, int), ProjectMember>) {
    forall k :: k in m ==> IsLevel(m[k].accessLevel)
  }

  // ---------------------------------------------------------------------
  // The store invariant, table by table
  // ---------------------------------------------------------------------

  predicate OrganizationsValid(m: map<int, Organization>) {
    OrganizationsKeyed(m) && OrganizationNamesUnique(m) && OrganizationNumbersUnique(m)
  }

  predicate GroupsValid(m: map<int, Group>) {
    GroupsKeyed(m) && GroupNamesUnique(m)
  }

  /** Memberships are keyed by pair and refer to existing groups and users. */
  predicate GroupMembersValid(m: map<(int, int), GroupMember>, groups: map<int, Group>, users: map<int, User>) {
    GroupMembersKeyed(m) && forall k :: k in m ==> k.0 in groups && k.1 in users
  }

  /** Member rows are keyed by pair, hold a known level and refer to
      existing projects and users. */
  predicate ProjectMembersValid(m: map<(int, int), ProjectMember>, projects: map<int, Project>, users: map<int, User>) {
    ProjectMembersKeyed(m) && LevelsValid(m) && forall k :: k in m ==> k.0 in projects && k.1 in users
  }

  predicate RolesValid(m: map<int, Role>) {
    RolesKeyed(m) && RoleNamesUnique(m)
  }

  /** `users.name` and `users.role_id` are NOT NULL without a default
      (models.py): a row missing either fails its commit. */
  predicate MeetsNotNull(u: User) {
    u.name.Some? && u.roleId.Some?
  }

  predicate UsersValid(m: map<int, User>) {
    UsersKeyed(m) && EmailsUnique(m)
  }

  /** One token per user (the key), token values unique, owners exist. */
  predicate TokensValid(m: map<int, Token>, users: map<int, User>) {
    TokensKeyed(m) && TokenValuesUnique(m) && forall k :: k in m ==> k in users
  }

  predicate ProjectsValid(m: map<int, Project>, users: map<int, User>) {
    ProjectsKeyed(m) && forall k :: k in m ==> m[k].ownerUserId in users
  }

  predicate RequirementsValid(m: map<int, Requirement>, projects: map<int, Project>) {
    RequirementsKeyed(m) && forall k :: k in m ==> m[k].projectId in projects
  }

  predicate TestCasesValid(m: map<int, TestCase>) {
    TestCasesKeyed(m) && TestCaseTitlesUnique(m)
  }

  predicate RequestLogsValid(m: map<int, RequestLog>, projects: map<int, Project>) {
    RequestLogsKeyed(m) && forall k :: k in m ==> m[k].projectId in projects
  }

  /** The id the next insert into a table with the ids `ids` receives: one
      more than the largest, or 1 for an empty table (SQLite's rowid). */
  function NewId(ids: set<int>): (r: int)
    ensures r !in ids
    ensures forall k :: k in ids ==> k < r
  {
    if ids == {} then 1 else Sorting.Max(ids) + 1
  }

  function GroupMemberIds(m: map<(int, int), GroupMember>): set<int> {
    set k | k in m :: m[k].id
  }

  function ProjectMemberIds(m: map<(int, int), ProjectMember>): set<int> {
    set k | k in m :: m[k].id
  }

  /** The second components of the keys of `m` whose first component is
      `x`: the users that have a row on project or group `x`. */
  function UsersOn<V>(m: map<(int, int), V>, x: int): (r: set<int>)
    ensures forall u :: u in r <==> (x, u) in m
  {
    var r := set k | k in m && k.0 == x :: k.1;
    assert forall u :: (x, u) in m ==> u in r by {
      forall u | (x, u) in m ensures u in r {
        var k := (x, u);
        assert k in m && k.0 == x;
      }
    }
    r
  }

  /** The rows of `m` at the keys `(x, u)`, `u` taken from `us` in order. */
  function PairRowsAt<V>(m: map<(int, int), V>, x: int, us: seq<int>): (r: seq<V>)
    requires forall i :: 0 <= i < |us| ==> (x, us[i]) in m
    ensures |r| == |us|
    ensures forall i :: 0 <= i < |us| ==> r[i] == m[(x, us[i])]
  {
    seq(|us|, i requires 0 <= i < |us| => m[(x, us[i])])
  }

  /** The rows of `m` at the keys `ks`, in that order. */
  function RowsAt<V>(m: map<int, V>, ks: seq<int>): (r: seq<V>)
    requires forall i :: 0 <= i < |ks| ==> ks[i] in m
    ensures |r| == |ks|
    ensures forall i :: 0 <= i < |ks| ==> r[i] == m[ks[i]]
  {
    seq(|ks|, i requires 0 <= i < |ks| => m[ks[i]])
  }

  /** All rows of `m`, in key order (a `SELECT` without `WHERE`). */
  function TableRows<V(!new)>(m: map<int, V>): (r: seq<V>)
    ensures |r| == |m|
    ensures forall v :: v in r <==> exists k :: k in m && m[k] == v
  {
    var ks := Sorting.Ascending(m.Keys);
    assert |m.Keys| == |m|;
    AllKeysAllRows(m, ks);
    RowsAt(m, ks)
  }

  /** Reading every key gives every row. */
  lemma AllKeysAllRows<V>(m: map<int, V>, ks: seq<int>)
    requires forall k :: k in ks <==> k in m
    ensures forall i :: 0 <= i < |ks| ==> ks[i] in m
    ensures forall v :: v in RowsAt(m, ks) <==> exists k :: k in m && m[k] == v
  {
    forall i | 0 <= i < |ks| ensures ks[i] in m {
      var k := ks[i];
      assert k in ks;
    }
    var r := RowsAt(m, ks);
    forall k | k in m ensures m[k] in r {
      assert k in ks;
      var i :| 0 <= i < |ks| && ks[i] == k;
      assert r[i] == m[k];
    }
    forall v | v in r ensures exists k :: k in m && m[k] == v {
      var i :| 0 <= i < |r| && r[i] == v;
      var k := ks[i];
      assert k in m && m[k] == v;
    }
  }

  /** The smallest key whose row satisfies `p`: the row `.first()` returns
      from a `WHERE` query, the keys being the row ids. */
  function FirstKeyWhere<V(!new)>(m: map<int, V>, p: V -> bool): (r: Option<int>)
    ensures r.Some? ==> r.value in m && p(m[r.value])
    ensures r.Some? ==> forall k :: k in m && p(m[k]) ==> r.value <= k
    ensures r.None? <==> forall k :: k in m ==> !p(m[k])
  {
    var ks := set k | k in m && p(m[k]);
    assert forall k :: k in m && p(m[k]) ==> k in ks;
    if ks == {} then None else Some(Sorting.Min(ks))
  }

  /** Some user has the address `email`. */
  predicate HasEmail(users: map<int, User>, email: string) {
    exists k :: k in users && users[k].email == email
  }

  /** The user a lookup by e-mail address returns. */
  function FindUserByEmail(users: map<int, User>, email: string): (r: Option<int>)
    ensures r.Some? ==> r.value in users && users[r.value].email == email
    ensures r.None? <==> !HasEmail(users, email)
  {
    FirstKeyWhere(users, (u: User) => u.email == email)
  }

  /** Addresses are unique, so the lookup finds the one user that has it. */
  lemma FindUserByEmailIsTheAddressee(users: map<int, User>, email: string, k: int)
    requires EmailsUnique(users) && k in users && users[k].email == email
    ensures FindUserByEmail(users, email) == Some(k)
  {
  }

  /** The owner of the token row holding `value`. */
  function FindToken(tokens: map<int, Token>, value: string): (r: Option<int>)
    ensures r.Some? ==> r.value in tokens && tokens[r.value].token == value
    ensures r.None? <==> forall k :: k in tokens ==> tokens[k].token != value
  {
    FirstKeyWhere(tokens, (t: Token) => t.token == value)
  }

  /** Token values are unique, so the lookup finds the one row that has it. */
  lemma FindTokenIsTheHolder(tokens: map<int, Token>, value: string, k: int)
    requires TokenValuesUnique(tokens) && k in tokens && tokens[k].token == value
    ensures FindToken(tokens, value) == Some(k)
  {
  }

  /** The database of one running application, one map per table.  A handler
      is one transaction on it. */
  class Database {
    var organizations: map<int, Organization>
    var groups: map<int, Group>
    var groupMembers: map<(int, int), GroupMember>
    var projectMembers: map<(int, int), ProjectMember>
    var roles: map<int, Role>
    var users: map<int, User>
    var tokens: map<int, Token>
    var projects: map<int, Project>
    var requirements: map<int, Requirement>
    var testCases: map<int, TestCase>
    var requestLogs: map<int, RequestLog>

    /** Every table keeps its constraints and its references. */
    ghost predicate Valid()
      reads this
    {
      OrganizationsValid(organizations) && GroupsValid(groups)
      && GroupMembersValid(groupMembers, groups, users)
      && ProjectMembersValid(projectMembers, projects, users)
      && RolesValid(roles) && UsersValid(users) && TokensValid(tokens, users)
      && ProjectsValid(projects, users) && RequirementsValid(requirements, projects)
      && TestCasesValid(testCases) && RequestLogsValid(requestLogs, projects)
    }

    constructor()
      ensures organizations == map[] && groups == map[] && groupMembers == map[]
      ensures projectMembers == map[] && roles == map[] && users == map[] && tokens == map[]
      ensures projects == map[] && requirements == map[] && testCases == map[]
      ensures requestLogs == map[]
      ensures Valid()
    {
      organizations, groups, groupMembers, projectMembers := map[], map[], map[], map[];
      roles, users, tokens, projects := map[], map[], map[], map[];
      requirements, testCases, requestLogs := map[], map[], map[];
    }
  }

  /** Inserting a group under a fresh id, with a name not yet used in its
      organisation, keeps the groups table valid. */
  lemma InsertKeepsGroupsValid(m: map<int, Group>, g: Group)
    requires GroupsValid(m) && g.id !in m
    requires forall k :: k in m ==> !(m[k].organizationId == g.organizationId && m[k].name == g.name)
    ensures GroupsValid(m[g.id := g])
  {
    var m' := m[g.id := g];
    forall a, b | a in m' && b in m' && m'[a].organizationId == m'[b].organizationId && m'[a].name == m'[b].name
      ensures a == b
    {
      if a != g.id && b != g.id {
        assert m'[a] == m[a] && m'[b] == m[b];
      }
    }
  }

  /** Inserting a user under a fresh id, with an address nobody has, keeps
      the users table valid. */
  lemma InsertKeepsUsersValid(m: map<int, User>, u: User)
    requires UsersValid(m) && u.id !in m
    requires forall k :: k in m ==> m[k].email != u.email
    ensures UsersValid(m[u.id := u])
  {
    var m' := m[u.id := u];
    forall a, b | a in m' && b in m' && m'[a].email == m'[b].email ensures a == b {
      if a != u.id && b != u.id {
        assert m'[a] == m[a] && m'[b] == m[b];
      }
    }
  }

  /** Deleting token rows keeps the tokens table valid. */
  lemma RemovalKeepsTokensValid(m: map<int, Token>, users: map<int, User>, gone: set<int>)
    requires TokensValid(m, users)
    ensures TokensValid(m - gone, users)
  {
    var m' := m - gone;
    assert forall k :: k in m' ==> m'[k] == m[k];
  }

  /** Writing a user's token row, with a value no other user's token has,
      keeps the tokens table valid. */
  lemma ReplacementKeepsTokensValid(m: map<int, Token>, users: map<int, User>, t: Token)
    requires TokensValid(m, users) && t.userId in users
    requires forall k :: k in m && k != t.userId ==> m[k].token != t.token
    ensures TokensValid(m[t.userId := t], users)
  {
    var m' := m[t.userId := t];
    forall a, b | a in m' && b in m' && m'[a].token == m'[b].token ensures a == b {
      if a != t.userId && b != t.userId {
        assert m'[a] == m[a] && m'[b] == m[b];
      }
    }
  }

  /** Adding a user keeps every token linked to a user. */
  lemma NewUserKeepsTokensValid(m: map<int, Token>, users: map<int, User>, u: User)
    requires TokensValid(m, users)
    ensures TokensValid(m, users[u.id := u])
  {
  }

  /** At most one project member row per (project, user) pair. */
  lemma OneProjectMemberPerPair(m: map<(int, int), ProjectMember>, a: (int, int), b: (int, int))
    requires ProjectMembersKeyed(m)
    requires a in m && b in m
    requires m[a].projectId == m[b].projectId && m[a].userId == m[b].userId
    ensures a == b
  {
  }

  /** At most one group membership per (group, user) pair. */
  lemma OneGroupMemberPerPair(m: map<(int, int), GroupMember>, a: (int, int), b: (int, int))
    requires GroupMembersKeyed(m)
    requires a in m && b in m
    requires m[a].groupId == m[b].groupId && m[a].userId == m[b].userId
    ensures a == b
  {
  }

  /** Each user holds at most one token. */
  lemma OneTokenPerUser(t: map<int, Token>, a: int, b: int)
    requires TokensKeyed(t)
    requires a in t && b in t && t[a].userId == t[b].userId
    ensures a == b
  {
  }

  // ---------------------------------------------------------------------
  // Declared cascades
  // ---------------------------------------------------------------------

  /** Rows of `m` whose key is not in `gone`. */
  function Without<K(!new), V>(m: map<K, V>, gone: set<K>): (r: map<K, V>)
    ensures forall k :: k in r <==> k in m && k !in gone
    ensures forall k :: k in r ==> r[k] == m[k]
  {
    map k | k in m && k !in gone :: m[k]
  }

  /** The projects owned by one of the users `us`. */
  function OwnedBy(projects: map<int, Project>, us: set<int>): (r: set<int>)
    ensures forall p :: p in r <==> p in projects && projects[p].ownerUserId in us
  {
    set p | p in projects && projects[p].ownerUserId in us
  }

  /** The ids of the project's requirements. */
  function RequirementsOf(reqs: map<int, Requirement>, projectId: int): (r: set<int>)
    ensures forall k :: k in r <==> k in reqs && reqs[k].projectId == projectId
  {
    set k | k in reqs && reqs[k].projectId == projectId
  }

  /** The ids of the project's test cases. */
  function TestCasesOf(tcs: map<int, TestCase>, projectId: int): (r: set<int>)
    ensures forall k :: k in r <==> k in tcs && tcs[k].projectId == projectId
  {
    set k | k in tcs && tcs[k].projectId == projectId
  }

  /** Request logs of projects outside `ps`. */
  function LogsOutside(m: map<int, RequestLog>, ps: set<int>): (r: map<int, RequestLog>)
    ensures forall k :: k in r <==> k in m && m[k].projectId !in ps
    ensures forall k :: k in r ==> r[k] == m[k]
  {
    map k | k in m && m[k].projectId !in ps :: m[k]
  }

  /** Requirements of projects outside `ps`. */
  function RequirementsOutside(m: map<int, Requirement>, ps: set<int>): (r: map<int, Requirement>)
    ensures forall k :: k in r <==> k in m && m[k].projectId !in ps
    ensures forall k :: k in r ==> r[k] == m[k]
  {
    map k | k in m && m[k].projectId !in ps :: m[k]
  }

  /** Pair-keyed rows whose first component is outside `xs` and whose user
      is outside `us`. */
  function PairsOutside<V>(m: map<(int, int), V>, xs: set<int>, us: set<int>): (r: map<(int, int), V>)
    ensures forall k :: k in r <==> k in m && k.0 !in xs && k.1 !in us
    ensures forall k :: k in r ==> r[k] == m[k]
  {
    map k | k in m && k.0 !in xs && k.1 !in us :: m[k]
  }

  /** Two removals of pair-keyed rows in a row are one removal of both. */
  lemma PairsOutsideTwice<V>(m: map<(int, int), V>, xs: set<int>, us: set<int>, xs': set<int>, us': set<int>)
    ensures PairsOutside(PairsOutside(m, xs, us), xs', us') == PairsOutside(m, xs + xs', us + us')
  {
  }

  /** Deletes the projects `ps` with the rows their relationships cascade
      to: request logs, requirements and member rows. */
  method DeleteProjects(db: Database, ps: set<int>)
    requires ProjectsValid(db.projects, db.users)
    requires ProjectMembersValid(db.projectMembers, db.projects, db.users)
    requires RequirementsValid(db.requirements, db.projects)
    requires RequestLogsValid(db.requestLogs, db.projects)
    modifies db`projects, db`projectMembers, db`requestLogs, db`requirements
    ensures db.projects == Without(old(db.projects), ps)
    ensures db.projectMembers == PairsOutside(old(db.projectMembers), ps, {})
    ensures db.requestLogs == LogsOutside(old(db.requestLogs), ps)
    ensures db.requirements == RequirementsOutside(old(db.requirements), ps)
    ensures ProjectsValid(db.projects, db.users)
    ensures ProjectMembersValid(db.projectMembers, db.projects, db.users)
    ensures RequirementsValid(db.requirements, db.projects)
    ensures RequestLogsValid(db.requestLogs, db.projects)
  {
    db.requestLogs := LogsOutside(db.requestLogs, ps);
    db.requirements := RequirementsOutside(db.requirements, ps);
    db.projectMembers := PairsOutside(db.projectMembers, ps, {});
    db.projects := Without(db.projects, ps);
  }

  /** Deletes the users `us` with the rows their relationships cascade to:
      the token, group memberships and project memberships.  The projects
      they own cascade too and must be deleted first (`DeleteProjects`). */
  method DeleteUsers(db: Database, us: set<int>)
    requires forall p :: p in db.projects ==> db.projects[p].ownerUserId !in us
    requires UsersValid(db.users) && TokensValid(db.tokens, db.users)
    requires GroupMembersValid(db.groupMembers, db.groups, db.users)
    requires ProjectMembersValid(db.projectMembers, db.projects, db.users)
    requires ProjectsValid(db.projects, db.users)
    modifies db`users, db`tokens, db`groupMembers, db`projectMembers
    ensures db.users == Without(old(db.users), us)
    ensures db.tokens == Without(old(db.tokens), us)
    ensures db.groupMembers == PairsOutside(old(db.groupMembers), {}, us)
    ensures db.projectMembers == PairsOutside(old(db.projectMembers), {}, us)
    ensures UsersValid(db.users) && TokensValid(db.tokens, db.users)
    ensures GroupMembersValid(db.groupMembers, db.groups, db.users)
    ensures ProjectMembersValid(db.projectMembers, db.projects, db.users)
    ensures ProjectsValid(db.projects, db.users)
  {
    db.tokens := Without(db.tokens, us);
    db.groupMembers := PairsOutside(db.groupMembers, {}, us);
    db.projectMembers := PairsOutside(db.projectMembers, {}, us);
    db.users := Without(db.users, us);
  }

  /** Deletes the groups `gs` with their memberships. */
  method DeleteGroups(db: Database, gs: set<int>)
    requires GroupsValid(db.groups) && GroupMembersValid(db.groupMembers, db.groups, db.users)
    modifies db`groups, db`groupMembers
    ensures db.groups == Without(old(db.groups), gs)
    ensures db.groupMembers == PairsOutside(old(db.groupMembers), gs, {})
    ensures GroupsValid(db.groups) && GroupMembersValid(db.groupMembers, db.groups, db.users)
  {
    db.groupMembers := PairsOutside(db.groupMembers, gs, {});
    db.groups := Without(db.groups, gs);
  }
}
