/** The "My Projects" page: the sorted project list, the default active
    project, the member maps built from the members response, member labels
    and the guard on sharing a project by e-mail. */
module MyProjectsPage {
  import opened Common
  import Sorting
  import Models

  // ---------------------------------------------------------------------
  // The project list
  // ---------------------------------------------------------------------

  /** A project as listed; `createdAt` is the parsed `created_at`, `None`
      when it is missing or empty. */
  datatype ProjectItem = ProjectItem(id: int, name: Option<string>, createdAt: Option<int>)

  /** `p.name || ""` */
  function NameKey(p: ProjectItem): string {
    if p.name.Some? then p.name.value else ""
  }

  /** `new Date(p.created_at || 0).getTime()` */
  function TimeKey(p: ProjectItem): int {
    if p.createdAt.Some? then p.createdAt.value else 0
  }

  predicate NameAscending(a: ProjectItem, b: ProjectItem) { StrLe(NameKey(a), NameKey(b)) }
  predicate NameDescending(a: ProjectItem, b: ProjectItem) { StrLe(NameKey(b), NameKey(a)) }
  predicate OldestFirst(a: ProjectItem, b: ProjectItem) { TimeKey(a) <= TimeKey(b) }
  predicate NewestFirst(a: ProjectItem, b: ProjectItem) { TimeKey(b) <= TimeKey(a) }

  /** The order a sort key selects; any key other than the three named ones
      sorts newest first. */
  function OrderOf(sortBy: string): (le: (ProjectItem, ProjectItem) -> bool)
    ensures sortBy != "name_asc" && sortBy != "name_desc" && sortBy != "created_asc" ==> le == NewestFirst
  {
    if sortBy == "name_asc" then NameAscending
    else if sortBy == "name_desc" then NameDescending
    else if sortBy == "created_asc" then OldestFirst
    else NewestFirst
  }

  lemma OrderTotal(sortBy: string)
    ensures Sorting.Total(OrderOf(sortBy))
  {
    forall a: ProjectItem, b: ProjectItem ensures OrderOf(sortBy)(a, b) || OrderOf(sortBy)(b, a) {
      StrLeTotal(NameKey(a), NameKey(b));
    }
  }

  /** `[...projects].sort(...)`: the same projects, in the selected order.
      The list itself is a value here, so sorting the copy leaves it as it
      was. */
  function SortedProjects(projects: seq<ProjectItem>, sortBy: string): (r: seq<ProjectItem>)
    ensures multiset(r) == multiset(projects)
    ensures Sorting.Sorted(r, OrderOf(sortBy))
  {
    OrderTotal(sortBy);
    Sorting.SortBySorted(projects, OrderOf(sortBy));
    Sorting.SortBy(projects, OrderOf(sortBy))
  }

  /** A sort key the page does not know orders newest first. */
  lemma UnknownKeyIsNewestFirst(projects: seq<ProjectItem>, sortBy: string)
    requires sortBy != "name_asc" && sortBy != "name_desc" && sortBy != "created_asc"
    ensures SortedProjects(projects, sortBy) == SortedProjects(projects, "created_desc")
  {
    assert OrderOf("created_desc") == NewestFirst;
  }

  /** Under "name_asc" a project without a name sorts with the empty name,
      before every named one. */
  lemma UnnamedFirstByName(projects: seq<ProjectItem>)
    requires forall i :: 0 <= i < |projects| ==> projects[i].name.None?
    ensures forall i :: 0 <= i < |SortedProjects(projects, "name_asc")| ==>
              NameKey(SortedProjects(projects, "name_asc")[i]) == ""
  {
    var r := SortedProjects(projects, "name_asc");
    forall i | 0 <= i < |r| ensures NameKey(r[i]) == "" {
      assert r[i] in multiset(projects);
    }
  }

  /** `fetchProjects`: without an active project the first listed one
      becomes active; an active project is kept as it is. */
  function ActiveAfterFetch(active: Option<int>, list: seq<ProjectItem>): (r: Option<int>)
    ensures !Truthy(active) && |list| > 0 ==> r == Some(list[0].id)
    ensures Truthy(active) || |list| == 0 ==> r == active
  {
    if !Truthy(active) && |list| > 0 then Some(list[0].id) else active
  }

  /** `projects.find(p => p.id === activeProjectId)` */
  function ActiveProject(projects: seq<ProjectItem>, active: Option<int>): (r: Option<ProjectItem>)
    ensures r.Some? ==> r.value in projects && Some(r.value.id) == active
    ensures r.None? <==> forall i :: 0 <= i < |projects| ==> Some(projects[i].id) != active
    decreases |projects|
  {
    if projects == [] then None
    else if Some(projects[0].id) == active then Some(projects[0])
    else ActiveProject(projects[1..], active)
  }

  /** After loading a non-empty list with no active project, the active
      project is the first listed. */
  lemma FirstBecomesActive(active: Option<int>, list: seq<ProjectItem>)
    requires !Truthy(active) && |list| > 0
    ensures ActiveProject(list, ActiveAfterFetch(active, list)) == Some(list[0])
  {
  }

  /** An active id left over from elsewhere is kept even when the loaded list
      does not hold it; the page then has no active project. */
  lemma StaleActiveKept(active: Option<int>, list: seq<ProjectItem>)
    requires Truthy(active) && forall i :: 0 <= i < |list| ==> list[i].id != active.value
    ensures ActiveAfterFetch(active, list) == active
    ensures ActiveProject(list, ActiveAfterFetch(active, list)).None?
  {
  }

  // ---------------------------------------------------------------------
  // Member rows and the maps built from them
  // ---------------------------------------------------------------------

  datatype GroupRef = GroupRef(id: int, name: string)

  /** The `user` object a member row may carry. */
  datatype MemberUser = MemberUser(name: Option<string>, email: Option<string>, roleName: Option<string>,
                                   groups: Option<seq<GroupRef>>)

  /** `{...m.user, role: m.user.role_name}` */
  datatype UserEntry = UserEntry(user: MemberUser, role: Option<string>)

  /** A row of the members response as the page reads it. */
  datatype MemberRow = MemberRow(userId: Option<int>, groupId: Option<int>, accessLevel: Option<string>,
                                 user: Option<MemberUser>, userEmail: Option<string>, groupName: Option<string>)

  /** The row the members endpoint returns for a stored member: it names
      the user by id and carries no `user` object and no group. */
  function FromServer(r: Models.ProjectMember): MemberRow {
    MemberRow(Some(r.userId), None, Some(r.accessLevel), None, None, None)
  }

  /** `m.user && m.user_id` */
  predicate Recorded(m: MemberRow) {
    m.user.Some? && Truthy(m.userId)
  }

  predicate RecordedAs(m: MemberRow, k: int) {
    Recorded(m) && m.userId.value == k
  }

  /** `m.user.groups || []` */
  function GroupsOf(u: MemberUser): seq<GroupRef> {
    if u.groups.Some? then u.groups.value else []
  }

  datatype MemberMaps = MemberMaps(users: map<int, UserEntry>, groups: map<int, seq<GroupRef>>)

  /** What one pass of the loop does with a row. */
  function Record(acc: MemberMaps, m: MemberRow): MemberMaps {
    if Recorded(m) then
      MemberMaps(acc.users[m.userId.value := UserEntry(m.user.value, m.user.value.roleName)],
                 acc.groups[m.userId.value := GroupsOf(m.user.value)])
    else acc
  }

  /** The maps after the loop has seen `arr`. */
  function MapsOf(arr: seq<MemberRow>): MemberMaps
    decreases |arr|
  {
    if arr == [] then MemberMaps(map[], map[])
    else Record(MapsOf(arr[..|arr| - 1]), arr[|arr| - 1])
  }

  /** `loadMembers`: fills `usersMap` and `groupsMap` from the rows in order. */
  method LoadMembers(arr: seq<MemberRow>) returns (usersMap: map<int, UserEntry>, groupsMap: map<int, seq<GroupRef>>)
    ensures MemberMaps(usersMap, groupsMap) == MapsOf(arr)
  {
    usersMap := map[];
    groupsMap := map[];
    var i := 0;
    while i < |arr|
      invariant 0 <= i <= |arr|
      invariant MemberMaps(usersMap, groupsMap) == MapsOf(arr[..i])
    {
      var m := arr[i];
      if m.user.Some? && m.userId.Some? && m.userId.value != 0 {
        usersMap := usersMap[m.userId.value := UserEntry(m.user.value, m.user.value.roleName)];
        groupsMap := groupsMap[m.userId.value := GroupsOf(m.user.value)];
      }
      assert arr[..i + 1][..i] == arr[..i];
      i := i + 1;
    }
    assert arr[..|arr|] == arr;
  }

  /** Exactly the users of rows with both a `user` and a `user_id` are
      recorded, in both maps. */
  lemma {:induction false} MapsOfKeys(arr: seq<MemberRow>, k: int)
    ensures k in MapsOf(arr).users <==> exists i :: 0 <= i < |arr| && RecordedAs(arr[i], k)
    ensures k in MapsOf(arr).groups <==> k in MapsOf(arr).users
    decreases |arr|
  {
    if arr != [] {
      var init := arr[..|arr| - 1];
      MapsOfKeys(init, k);
      if exists i :: 0 <= i < |init| && RecordedAs(init[i], k) {
        var i :| 0 <= i < |init| && RecordedAs(init[i], k);
        assert arr[i] == init[i];
      }
      if exists i :: 0 <= i < |arr| && RecordedAs(arr[i], k) {
        var i :| 0 <= i < |arr| && RecordedAs(arr[i], k);
        if i < |init| {
          assert init[i] == arr[i];
        }
      }
    }
  }

  /** The last recording row of a user decides what is kept for it. */
  lemma {:induction false} LastRowWins(arr: seq<MemberRow>, i: int, k: int)
    requires 0 <= i < |arr| && RecordedAs(arr[i], k)
    requires forall j :: i < j < |arr| ==> !RecordedAs(arr[j], k)
    ensures k in MapsOf(arr).users && k in MapsOf(arr).groups
    ensures MapsOf(arr).users[k] == UserEntry(arr[i].user.value, arr[i].user.value.roleName)
    ensures MapsOf(arr).groups[k] == GroupsOf(arr[i].user.value)
    decreases |arr|
  {
    if i < |arr| - 1 {
      var init := arr[..|arr| - 1];
      assert init[i] == arr[i];
      forall j | i < j < |init| ensures !RecordedAs(init[j], k) {
        assert init[j] == arr[j];
      }
      LastRowWins(init, i, k);
    }
  }

  function ServerRows(rows: seq<Models.ProjectMember>): (r: seq<MemberRow>)
    ensures |r| == |rows| && forall i :: 0 <= i < |rows| ==> r[i] == FromServer(rows[i])
  {
    seq(|rows|, i requires 0 <= i < |rows| => FromServer(rows[i]))
  }

  /** The members endpoint sends no `user` objects, so the page records no
      user and no groups from it. */
  lemma {:induction false} ServerRowsRecordNobody(rows: seq<Models.ProjectMember>)
    ensures MapsOf(ServerRows(rows)) == MemberMaps(map[], map[])
    decreases |rows|
  {
    if rows != [] {
      var init := rows[..|rows| - 1];
      assert ServerRows(rows)[..|rows| - 1] == ServerRows(init);
      ServerRowsRecordNobody(init);
    }
  }

  // ---------------------------------------------------------------------
  // Labels and the e-mail guard
  // ---------------------------------------------------------------------

  /** `a || b` for an optional string and a fallback. */
  function Or(a: Option<string>, b: string): (r: string)
    ensures Given(a) ==> r == a.value
    ensures !Given(a) ==> r == b
  {
    if Given(a) then a.value else b
  }

  /** `memberLabel`: a user row is named by the recorded user's name or
      e-mail, the row's `user_email`, or its id; a group row by its name or
      id; anything else is "Member". */
  function MemberLabel(m: MemberRow, users: map<int, UserEntry>): (r: string)
    ensures r != ""
    ensures Truthy(m.userId) && m.userId.value !in users ==> r == Or(m.userEmail, "User ID: " + IntToString(m.userId.value))
    ensures Truthy(m.userId) && m.userId.value in users ==>
              r == Or(users[m.userId.value].user.name, Or(users[m.userId.value].user.email,
                      Or(m.userEmail, "User ID: " + IntToString(m.userId.value))))
    ensures !Truthy(m.userId) && Given(m.groupName) ==> r == "Group: " + m.groupName.value
    ensures !Truthy(m.userId) && !Given(m.groupName) && Truthy(m.groupId) ==> r == "Group ID: " + IntToString(m.groupId.value)
    ensures !Truthy(m.userId) && !Given(m.groupName) && !Truthy(m.groupId) ==> r == "Member"
  {
    if Truthy(m.userId) then
      var fallback := Or(m.userEmail, "User ID: " + IntToString(m.userId.value));
      if m.userId.value in users then
        Or(users[m.userId.value].user.name, Or(users[m.userId.value].user.email, fallback))
      else fallback
    else if Given(m.groupName) then "Group: " + m.groupName.value
    else if Truthy(m.groupId) then "Group ID: " + IntToString(m.groupId.value)
    else "Member"
  }

  /** A user row is labelled the same whatever group fields it carries. */
  lemma UserRowIgnoresGroup(m: MemberRow, users: map<int, UserEntry>, groupId: Option<int>, groupName: Option<string>)
    requires Truthy(m.userId)
    ensures MemberLabel(m.(groupId := groupId, groupName := groupName), users) == MemberLabel(m, users)
  {
  }

  /** With the rows the members endpoint returns, every member is shown as
      "User ID: n" (a stored member's id is positive). */
  lemma ServerMembersLabelledById(rows: seq<Models.ProjectMember>, i: int)
    requires 0 <= i < |rows| && rows[i].userId > 0
    ensures MemberLabel(ServerRows(rows)[i], MapsOf(ServerRows(rows)).users)
         == "User ID: " + IntToString(rows[i].userId)
  {
    ServerRowsRecordNobody(rows);
  }

  /** What "Add user" does. */
  datatype AddRequest = NoProject | Refused(message: string) | PostMember(projectId: int, email: string, accessLevel: string)

  /** `addUserMember`: nothing without a project; a blank e-mail is refused
      on the page; otherwise the trimmed e-mail is posted with the level. */
  function AddUserMember(manageProject: Option<int>, shareEmail: string, level: string): (r: AddRequest)
    ensures manageProject.None? ==> r == NoProject
    ensures manageProject.Some? && JsTrim(shareEmail) == "" ==> r == Refused("Email is required")
    ensures manageProject.Some? && JsTrim(shareEmail) != "" ==>
              r == PostMember(manageProject.value, JsTrim(shareEmail), level)
  {
    if manageProject.None? then NoProject
    else if JsTrim(shareEmail) == "" then Refused("Email is required")
    else PostMember(manageProject.value, JsTrim(shareEmail), level)
  }

  /** Only a non-blank, already trimmed e-mail is ever posted, and a blank
      one never is. */
  lemma PostedEmailIsTrimmed(manageProject: Option<int>, shareEmail: string, level: string)
    ensures var r := AddUserMember(manageProject, shareEmail, level);
            r.PostMember? ==> r.email != "" && JsTrim(r.email) == r.email
    ensures (forall k :: 0 <= k < |shareEmail| ==> JsSpace(shareEmail[k])) ==>
              !AddUserMember(manageProject, shareEmail, level).PostMember?
  {
    TrimIdempotent(shareEmail, JsSpace);
    TrimEmptyIff(shareEmail, JsSpace);
  }
}
