/** Groups of users inside an organisation: creating and listing the
    caller's organisation's groups, and adding, listing and removing their
    members.  Every group operation is confined to the caller's
    organisation: a group of another organisation is "not found". */
module Groups {
  import opened Common
  import opened Models
  import Sorting

  /** The group exists and belongs to the caller's organisation. */
  predicate InCallersOrganization(groups: map<int, Group>, groupId: int, caller: User)
    ensures InCallersOrganization(groups, groupId, caller) ==> groupId in groups
    ensures caller.organizationId.None? ==> !InCallersOrganization(groups, groupId, caller)
  {
    groupId in groups && Some(groups[groupId].organizationId) == caller.organizationId
  }

  const GroupNotFound: string := "Group not found"

  /** Creates the group `name` in the caller's organisation. */
  method CreateGroup(db: Database, caller: User, name: string, now: int) returns (r: Result<Group>)
    requires GroupsValid(db.groups)
    modifies db`groups
    ensures GroupsValid(db.groups)
    ensures !Truthy(caller.organizationId) ==> r == Err(400, "User has no organization")
    ensures Truthy(caller.organizationId)
            && (exists k :: k in old(db.groups) && old(db.groups)[k].organizationId == caller.organizationId.value
                           && old(db.groups)[k].name == name)
        ==> r == Err(500, IntegrityErrorDetail)
    ensures r.Err? <==>
      || !Truthy(caller.organizationId)
      || exists k :: k in old(db.groups) && old(db.groups)[k].organizationId == caller.organizationId.value
                     && old(db.groups)[k].name == name
    ensures r.Err? ==> db.groups == old(db.groups)
    ensures r.Ok? ==>
      && Truthy(caller.organizationId)
      && r.value.organizationId == caller.organizationId.value && r.value.name == name && r.value.createdAt == now
      && r.value.id !in old(db.groups)
      && db.groups == old(db.groups)[r.value.id := r.value]
  {
    if !Truthy(caller.organizationId) {
      return Err(400, "User has no organization");
    }
    var org := caller.organizationId.value;
    if exists k :: k in db.groups && db.groups[k].organizationId == org && db.groups[k].name == name {
      return Err(500, IntegrityErrorDetail);
    }
    var g := Group(NewId(db.groups.Keys), org, name, now);
    InsertKeepsGroupsValid(db.groups, g);
    db.groups := db.groups[g.id := g];
    r := Ok(g);
  }

  /** Name order of `list_groups` (code-point order of the names). */
  predicate NameLe(a: Group, b: Group) {
    StrLe(a.name, b.name)
  }

  lemma NameLeTotal()
    ensures Sorting.Total(NameLe)
  {
    forall a: Group, b: Group ensures NameLe(a, b) || NameLe(b, a) {
      StrLeTotal(a.name, b.name);
    }
  }

  /** The groups of organisation `org`, by name.  With no organisation the
      query asks for `organization_id IS NULL`, which selects nothing because
      that column is NOT NULL. */
  function ListGroups(groups: map<int, Group>, org: Option<int>): (r: seq<Group>)
    ensures forall g :: g in r <==> (exists k :: k in groups && groups[k] == g) && Some(g.organizationId) == org
    ensures Sorting.Sorted(r, NameLe)
  {
    var mine := Filter(TableRows(groups), (g: Group) => Some(g.organizationId) == org);
    NameLeTotal();
    Sorting.SortBySorted(mine, NameLe);
    Sorting.SortByMembers(mine, NameLe);
    Sorting.SortBy(mine, NameLe)
  }

  /** The membership rows of one group, ordered by user id (the query sets
      no order). */
  function ListGroupMembers(groups: map<int, Group>, members: map<(int, int), GroupMember>,
                            groupId: int, caller: User): (r: Result<seq<GroupMember>>)
    requires GroupMembersKeyed(members)
    ensures !InCallersOrganization(groups, groupId, caller) ==> r == Err(404, GroupNotFound)
    ensures InCallersOrganization(groups, groupId, caller) ==> r.Ok?
    ensures r.Ok? ==> forall x :: x in r.value <==> exists k :: k in members && k.0 == groupId && members[k] == x
    ensures r.Ok? ==> forall i :: 0 <= i < |r.value| ==> r.value[i].groupId == groupId
    ensures r.Ok? ==> forall i, j :: 0 <= i < j < |r.value| ==> r.value[i].userId < r.value[j].userId
  {
    if !InCallersOrganization(groups, groupId, caller) then Err(404, GroupNotFound)
    else
      var us := Sorting.Ascending(UsersOn(members, groupId));
      var rows := PairRowsAt(members, groupId, us);
      assert forall x :: x in rows ==> exists k :: k in members && k.0 == groupId && members[k] == x by {
        forall x | x in rows ensures exists k :: k in members && k.0 == groupId && members[k] == x {
          var i :| 0 <= i < |rows| && rows[i] == x;
          assert members[(groupId, us[i])] == x;
        }
      }
      Ok(rows)
  }

  /** The body of a successful add or remove. */
  datatype MemberChange = MemberChange(status: string, groupId: int, userId: int)

  /** Adds `userId` to the group.  The row is inserted without looking for
      an existing one, so adding a member twice fails on the (group, user)
      uniqueness constraint. */
  method AddMember(db: Database, groupId: int, userId: int, caller: User, now: int) returns (r: Result<MemberChange>)
    requires GroupMembersValid(db.groupMembers, db.groups, db.users)
    modifies db`groupMembers
    ensures GroupMembersValid(db.groupMembers, db.groups, db.users)
    ensures !InCallersOrganization(db.groups, groupId, caller) ==> r == Err(404, GroupNotFound)
    ensures InCallersOrganization(db.groups, groupId, caller)
            && (userId !in db.users || db.users[userId].organizationId != caller.organizationId)
        ==> r == Err(404, "User not found in same organization")
    ensures InCallersOrganization(db.groups, groupId, caller)
            && userId in db.users && db.users[userId].organizationId == caller.organizationId
            && (groupId, userId) in old(db.groupMembers)
        ==> r == Err(500, IntegrityErrorDetail)
    ensures r.Ok? <==>
      && InCallersOrganization(db.groups, groupId, caller)
      && userId in db.users && db.users[userId].organizationId == caller.organizationId
      && (groupId, userId) !in old(db.groupMembers)
    ensures r.Err? ==> db.groupMembers == old(db.groupMembers)
    ensures r.Ok? ==>
      && r.value == MemberChange("added", groupId, userId)
      && InCallersOrganization(db.groups, groupId, caller)
      && userId in db.users && db.users[userId].organizationId == caller.organizationId
      && (groupId, userId) !in old(db.groupMembers) && (groupId, userId) in db.groupMembers
      && var row := db.groupMembers[(groupId, userId)];
         row.id !in GroupMemberIds(old(db.groupMembers)) && row.createdAt == now
         && db.groupMembers == old(db.groupMembers)[(groupId, userId) := row]
  {
    if !InCallersOrganization(db.groups, groupId, caller) {
      return Err(404, GroupNotFound);
    }
    if userId !in db.users || db.users[userId].organizationId != caller.organizationId {
      return Err(404, "User not found in same organization");
    }
    if (groupId, userId) in db.groupMembers {
      return Err(500, IntegrityErrorDetail);
    }
    var row := GroupMember(NewId(GroupMemberIds(db.groupMembers)), groupId, userId, now);
    db.groupMembers := db.groupMembers[(groupId, userId) := row];
    r := Ok(MemberChange("added", groupId, userId));
  }

  /** Deletes the (group, user) row if there is one; succeeds either way.
      Project member rows are not touched. */
  method RemoveMember(db: Database, groupId: int, userId: int, caller: User) returns (r: Result<MemberChange>)
    requires GroupMembersValid(db.groupMembers, db.groups, db.users)
    modifies db`groupMembers
    ensures GroupMembersValid(db.groupMembers, db.groups, db.users)
    ensures r.Ok? <==> InCallersOrganization(db.groups, groupId, caller)
    ensures r.Err? ==> r == Err(404, GroupNotFound) && db.groupMembers == old(db.groupMembers)
    ensures r.Ok? ==> r.value == MemberChange("removed", groupId, userId)
                      && db.groupMembers == old(db.groupMembers) - {(groupId, userId)}
  {
    if !InCallersOrganization(db.groups, groupId, caller) {
      return Err(404, GroupNotFound);
    }
    db.groupMembers := db.groupMembers - {(groupId, userId)};
    r := Ok(MemberChange("removed", groupId, userId));
  }
}
