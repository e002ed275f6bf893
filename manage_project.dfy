/** The project management page: the token-expiry check, the guards in
    front of its requests, and the "current access" table, which lists every
    user with a direct member row or a membership in a group that has a
    member row on the project, with the direct level and the groups side by
    side. */
module ManageProjectPage {
  import opened Common
  import Sorting
  import Models
  import Permissions
  import ProjectSharing
  import LoginPage
  import MP = MyProjectsPage

  /** `isTokenExpired`: false without an expiry or with one `Date` cannot
      read, else whether it has passed. */
  function TokenExpired(exp: Option<string>, parse: string -> Option<int>, now: int): (r: bool)
    ensures !Given(exp) ==> !r
    ensures Given(exp) && parse(exp.value).None? ==> !r
    ensures Given(exp) && parse(exp.value).Some? ==> (r <==> parse(exp.value).value <= now)
  {
    if !Given(exp) then false
    else
      match parse(exp.value)
      case None => false
      case Some(t) => t <= now
  }

  /** The expiry test agrees with the login page's `isProbablyExpired`. */
  lemma SameAsLoginCheck(exp: Option<string>, parse: string -> Option<int>, now: int)
    ensures TokenExpired(exp, parse, now) == LoginPage.IsProbablyExpired(exp, parse, now)
  {
  }

  // ---------------------------------------------------------------------
  // Guards in front of the requests
  // ---------------------------------------------------------------------

  /** A user as `/api/users` lists it. */
  datatype UserRow = UserRow(id: int, name: Option<string>, email: Option<string>)

  datatype Request =
    | NoRequest
    | Refused(message: string)
    | PostGroup(name: string)
    | PostGroupMember(group: string, userId: Option<int>)
    | PostMember(email: Option<string>, accessLevel: string)

  /** `createGroup`: the trimmed name, and no request when it is empty. */
  function CreateGroup(newGroupName: string): (r: Request)
    ensures JsTrim(newGroupName) == "" <==> r == NoRequest
    ensures r != NoRequest ==> r == PostGroup(JsTrim(newGroupName))
  {
    var name := JsTrim(newGroupName);
    if name == "" then NoRequest else PostGroup(name)
  }

  /** `addUserToGroup`: both selections are needed; the user id is
      `parseInt` of the selection (`None` for NaN, sent as null). */
  function AddUserToGroup(selectedGroup: string, selectedUser: string, parseInt: string -> Option<int>): (r: Request)
    ensures selectedGroup == "" || selectedUser == "" <==> r == Refused("Please select both a group and a user")
    ensures r != Refused("Please select both a group and a user") ==> r == PostGroupMember(selectedGroup, parseInt(selectedUser))
  {
    if selectedGroup == "" || selectedUser == "" then Refused("Please select both a group and a user")
    else PostGroupMember(selectedGroup, parseInt(selectedUser))
  }

  /** `allUsers.find(u => u.id === id)` */
  function FindUser(allUsers: seq<UserRow>, id: Option<int>): (r: Option<UserRow>)
    ensures r.Some? ==> r.value in allUsers && Some(r.value.id) == id
    ensures r.None? <==> forall i :: 0 <= i < |allUsers| ==> Some(allUsers[i].id) != id
    decreases |allUsers|
  {
    if allUsers == [] then None
    else if Some(allUsers[0].id) == id then Some(allUsers[0])
    else FindUser(allUsers[1..], id)
  }

  /** `addUserMember`: a selection is needed and must name a loaded user;
      that user's e-mail is sent with the chosen level. */
  function AddUserMember(selected: string, allUsers: seq<UserRow>, parseInt: string -> Option<int>, level: string)
    : (r: Request)
    ensures selected == "" ==> r == Refused("Please select a user")
    ensures selected != "" && FindUser(allUsers, parseInt(selected)).None? ==> r == Refused("User not found")
    ensures r.PostMember? ==> r.accessLevel == level
                              && exists i :: 0 <= i < |allUsers| && Some(allUsers[i].id) == parseInt(selected)
                                             && allUsers[i].email == r.email
  {
    if selected == "" then Refused("Please select a user")
    else
      var u := FindUser(allUsers, parseInt(selected));
      if u.None? then Refused("User not found") else PostMember(u.value.email, level)
  }

  /** A request goes out only for a selected, loaded user. */
  lemma MemberRequestNeedsLoadedUser(selected: string, allUsers: seq<UserRow>, parseInt: string -> Option<int>, level: string)
    ensures AddUserMember(selected, allUsers, parseInt, level).PostMember?
        <==> selected != "" && exists i :: 0 <= i < |allUsers| && Some(allUsers[i].id) == parseInt(selected)
  {
  }

  // ---------------------------------------------------------------------
  // Which groups and users have access
  // ---------------------------------------------------------------------

  /** `members.filter(m => Boolean(m.group_id)).map(m => m.group_id)` */
  function ActiveGroupIds(members: seq<MP.MemberRow>): (r: seq<int>)
    ensures forall g :: g in r <==> exists i :: 0 <= i < |members| && Truthy(members[i].groupId) && members[i].groupId.value == g
    decreases |members|
  {
    if members == [] then []
    else
      var init := members[..|members| - 1];
      var last := members[|members| - 1];
      var r := ActiveGroupIds(init) + (if Truthy(last.groupId) then [last.groupId.value] else []);
      assert forall i :: 0 <= i < |init| ==> init[i] == members[i];
      r
  }

  /** The ids of the direct user rows, in order. */
  function DirectIds(members: seq<MP.MemberRow>): (r: seq<int>)
    ensures forall u :: u in r <==> exists i :: 0 <= i < |members| && Truthy(members[i].userId) && members[i].userId.value == u
    decreases |members|
  {
    if members == [] then []
    else
      var init := members[..|members| - 1];
      var last := members[|members| - 1];
      var r := DirectIds(init) + (if Truthy(last.userId) then [last.userId.value] else []);
      assert forall i :: 0 <= i < |init| ==> init[i] == members[i];
      r
  }

  /** `groupMembers?.[gid] || []`, as the user ids of the group's entries. */
  function GroupUsers(groupMembers: map<int, seq<int>>, gid: int): seq<int> {
    if gid in groupMembers then groupMembers[gid] else []
  }

  function PairsOf(gid: int, users: seq<int>): (r: seq<(int, int)>)
    ensures |r| == |users| && forall j :: 0 <= j < |users| ==> r[j] == (gid, users[j])
  {
    seq(|users|, j requires 0 <= j < |users| => (gid, users[j]))
  }

  /** The (group, user) pairs the nested loops visit, in order. */
  function Pairs(active: seq<int>, groupMembers: map<int, seq<int>>): seq<(int, int)>
    decreases |active|
  {
    if active == [] then []
    else Pairs(active[..|active| - 1], groupMembers)
         + PairsOf(active[|active| - 1], GroupUsers(groupMembers, active[|active| - 1]))
  }

  lemma {:induction false} PairsMembers(active: seq<int>, groupMembers: map<int, seq<int>>, g: int, u: int)
    ensures (g, u) in Pairs(active, groupMembers) <==> g in active && u in GroupUsers(groupMembers, g)
    decreases |active|
  {
    if active != [] {
      var init := active[..|active| - 1];
      var last := active[|active| - 1];
      PairsMembers(init, groupMembers, g, u);
      assert active == init + [last];
      var tail := PairsOf(last, GroupUsers(groupMembers, last));
      assert (g, u) in tail <==> g == last && u in GroupUsers(groupMembers, last) by {
        if (g, u) in tail {
          var j :| 0 <= j < |tail| && tail[j] == (g, u);
        }
        if g == last && u in GroupUsers(groupMembers, last) {
          var j :| 0 <= j < |GroupUsers(groupMembers, last)| && GroupUsers(groupMembers, last)[j] == u;
          assert tail[j] == (g, u);
        }
      }
    }
  }

  /** The `usersViaActiveGroups` Map: its keys in insertion order and, per
      user, the group ids in insertion order (a `Set` keeps no duplicates). */
  datatype ViaState = ViaState(order: seq<int>, via: map<int, seq<int>>)

  function AddNew(xs: seq<int>, x: int): (r: seq<int>)
    ensures x in r && forall y :: y in r <==> y in xs || y == x
  {
    if x in xs then xs else xs + [x]
  }

  /** One pass of the inner loop over the pair (group, user). */
  function Step(s: ViaState, p: (int, int)): ViaState {
    var (gid, uid) := p;
    var order := if uid in s.via then s.order else s.order + [uid];
    var current := if uid in s.via then s.via[uid] else [];
    ViaState(order, s.via[uid := AddNew(current, gid)])
  }

  function FoldPairs(ps: seq<(int, int)>): ViaState
    decreases |ps|
  {
    if ps == [] then ViaState([], map[]) else Step(FoldPairs(ps[..|ps| - 1]), ps[|ps| - 1])
  }

  lemma FoldSnoc(ps: seq<(int, int)>, p: (int, int))
    ensures FoldPairs(ps + [p]) == Step(FoldPairs(ps), p)
  {
    assert (ps + [p])[..|ps|] == ps;
  }

  lemma PairsSnoc(active: seq<int>, i: int, groupMembers: map<int, seq<int>>)
    requires 0 <= i < |active|
    ensures Pairs(active[..i + 1], groupMembers) == Pairs(active[..i], groupMembers) + PairsOf(active[i], GroupUsers(groupMembers, active[i]))
  {
    assert active[..i + 1][..i] == active[..i];
  }

  lemma PairsOfSnoc(done: seq<(int, int)>, gid: int, entries: seq<int>, j: int)
    requires 0 <= j < |entries|
    ensures done + PairsOf(gid, entries[..j + 1]) == (done + PairsOf(gid, entries[..j])) + [(gid, entries[j])]
  {
    assert PairsOf(gid, entries[..j + 1]) == PairsOf(gid, entries[..j]) + [(gid, entries[j])];
  }

  /** The loop body's two updates (create the user's set if needed, then
      add the group) make one `Step`. */
  lemma StepByParts(s: ViaState, gid: int, uid: int)
    ensures var s1 := if uid !in s.via then ViaState(s.order + [uid], s.via[uid := []]) else s;
            ViaState(s1.order, s1.via[uid := AddNew(s1.via[uid], gid)]) == Step(s, (gid, uid))
  {
    if uid !in s.via {
      assert s.via[uid := []][uid := AddNew([], gid)] == s.via[uid := AddNew([], gid)];
    }
  }

  /** The nested loops that fill `usersViaActiveGroups`. */
  method UsersViaActiveGroups(active: seq<int>, groupMembers: map<int, seq<int>>) returns (s: ViaState)
    ensures s == FoldPairs(Pairs(active, groupMembers))
  {
    s := ViaState([], map[]);
    var i := 0;
    while i < |active|
      invariant 0 <= i <= |active|
      invariant s == FoldPairs(Pairs(active[..i], groupMembers))
    {
      var gid := active[i];
      var entries := GroupUsers(groupMembers, gid);
      ghost var done := Pairs(active[..i], groupMembers);
      assert done + PairsOf(gid, entries[..0]) == done;
      var j := 0;
      while j < |entries|
        invariant 0 <= j <= |entries|
        invariant s == FoldPairs(done + PairsOf(gid, entries[..j]))
      {
        var uid := entries[j];
        ghost var before := done + PairsOf(gid, entries[..j]);
        PairsOfSnoc(done, gid, entries, j);
        FoldSnoc(before, (gid, uid));
        StepByParts(s, gid, uid);
        if uid !in s.via {
          s := ViaState(s.order + [uid], s.via[uid := []]);
        }
        s := ViaState(s.order, s.via[uid := AddNew(s.via[uid], gid)]);
        j := j + 1;
      }
      PairsSnoc(active, i, groupMembers);
      assert entries[..|entries|] == entries;
      i := i + 1;
    }
    assert active[..|active|] == active;
  }

  predicate Distinct(xs: seq<int>) {
    forall i, j :: 0 <= i < j < |xs| ==> xs[i] != xs[j]
  }

  predicate UserListed(ps: seq<(int, int)>, u: int) {
    exists k :: 0 <= k < |ps| && ps[k].1 == u
  }

  /** What the Map holds after the pairs `ps`: exactly their users, each key
      once, and under each user exactly the groups paired with it. */
  ghost predicate ViaMatches(s: ViaState, ps: seq<(int, int)>) {
    (forall u :: u in s.order <==> u in s.via)
    && Distinct(s.order)
    && (forall u :: u in s.via <==> UserListed(ps, u))
    && (forall u, g :: u in s.via ==> (g in s.via[u] <==> (g, u) in ps))
  }

  lemma UserListedSnoc(ps: seq<(int, int)>, p: (int, int), u: int)
    ensures UserListed(ps + [p], u) <==> UserListed(ps, u) || p.1 == u
  {
    if UserListed(ps, u) {
      var k :| 0 <= k < |ps| && ps[k].1 == u;
      assert (ps + [p])[k] == ps[k];
    }
    if UserListed(ps + [p], u) && !(p.1 == u) {
      var k :| 0 <= k < |ps + [p]| && (ps + [p])[k].1 == u;
      assert k < |ps| && ps[k] == (ps + [p])[k];
    }
    if p.1 == u {
      assert (ps + [p])[|ps|] == p;
    }
  }

  lemma OrderSnocDistinct(order: seq<int>, u: int)
    requires Distinct(order) && u !in order
    ensures Distinct(order + [u])
  {
  }

  lemma StepKeeps(s: ViaState, ps: seq<(int, int)>, p: (int, int))
    requires ViaMatches(s, ps)
    ensures ViaMatches(Step(s, p), ps + [p])
  {
    var t := Step(s, p);
    forall u ensures UserListed(ps + [p], u) <==> UserListed(ps, u) || p.1 == u {
      UserListedSnoc(ps, p, u);
    }
    if p.1 !in s.via {
      OrderSnocDistinct(s.order, p.1);
    }
    forall u, g | u in t.via ensures g in t.via[u] <==> (g, u) in ps + [p] {
      assert (g, u) in ps + [p] <==> (g, u) in ps || (g, u) == p;
    }
  }

  lemma {:induction false} FoldPairsFacts(ps: seq<(int, int)>)
    ensures ViaMatches(FoldPairs(ps), ps)
    decreases |ps|
  {
    if ps != [] {
      var init := ps[..|ps| - 1];
      FoldPairsFacts(init);
      assert ps == init + [ps[|ps| - 1]];
      StepKeeps(FoldPairs(init), init, ps[|ps| - 1]);
    }
  }

  /** `new Set([...])`: the first occurrence of each id, in order. */
  function Dedup(xs: seq<int>): (r: seq<int>)
    ensures forall x :: x in r <==> x in xs
    ensures Distinct(r)
    decreases |xs|
  {
    if xs == [] then []
    else
      var d := Dedup(xs[..|xs| - 1]);
      assert xs == xs[..|xs| - 1] + [xs[|xs| - 1]];
      if xs[|xs| - 1] in d then d else d + [xs[|xs| - 1]]
  }

  // ---------------------------------------------------------------------
  // The rows of the table
  // ---------------------------------------------------------------------

  /** The user object a row shows (`{}` when nothing is known). */
  datatype UserView = UserView(name: Option<string>, email: Option<string>)

  datatype AccessRow = AccessRow(uid: int, user: UserView, directAccessLevel: Option<string>, viaGroups: seq<MP.GroupRef>)

  /** `directUserMembers.find(m => m.user_id === uid)` */
  function DirectRow(members: seq<MP.MemberRow>, uid: int): (r: Option<MP.MemberRow>)
    ensures r.Some? ==> r.value in members && Truthy(r.value.userId) && r.value.userId.value == uid
    ensures r.None? <==> forall i :: 0 <= i < |members| ==> !(Truthy(members[i].userId) && members[i].userId.value == uid)
    decreases |members|
  {
    if members == [] then None
    else if Truthy(members[0].userId) && members[0].userId.value == uid then Some(members[0])
    else DirectRow(members[1..], uid)
  }

  /** `direct?.access_level || null`: the level of the user's own row and
      nothing else. */
  function DirectLevel(members: seq<MP.MemberRow>, uid: int): (r: Option<string>)
    ensures r.Some? ==> DirectRow(members, uid).Some? && r == DirectRow(members, uid).value.accessLevel && r.value != ""
    ensures DirectRow(members, uid).None? ==> r.None?
  {
    var d := DirectRow(members, uid);
    if d.Some? && Given(d.value.accessLevel) then d.value.accessLevel else None
  }

  /** `groups.find(g => g.id === gid)` */
  function FindGroup(groups: seq<MP.GroupRef>, gid: int): (r: Option<MP.GroupRef>)
    ensures r.Some? ==> r.value in groups && r.value.id == gid
    ensures r.None? <==> forall i :: 0 <= i < |groups| ==> groups[i].id != gid
    decreases |groups|
  {
    if groups == [] then None
    else if groups[0].id == gid then Some(groups[0])
    else FindGroup(groups[1..], gid)
  }

  /** `viaGroupIds.map(gid => groups.find(...)).filter(Boolean)` */
  function FoundGroups(groups: seq<MP.GroupRef>, ids: seq<int>): (r: seq<MP.GroupRef>)
    ensures forall g :: g in r <==> exists k :: 0 <= k < |ids| && FindGroup(groups, ids[k]) == Some(g)
    decreases |ids|
  {
    if ids == [] then []
    else
      var init := ids[..|ids| - 1];
      var found := FindGroup(groups, ids[|ids| - 1]);
      assert forall k :: 0 <= k < |init| ==> init[k] == ids[k];
      FoundGroups(groups, init) + (if found.Some? then [found.value] else [])
  }

  /** `allUsers.find(u => u.id === uid) || memberUsers?.[uid] || {}` */
  function UserFor(uid: int, allUsers: seq<UserRow>, memberUsers: map<int, MP.UserEntry>): (r: UserView)
    ensures FindUser(allUsers, Some(uid)).Some? ==>
              r == UserView(FindUser(allUsers, Some(uid)).value.name, FindUser(allUsers, Some(uid)).value.email)
    ensures FindUser(allUsers, Some(uid)).None? && uid in memberUsers ==>
              r == UserView(memberUsers[uid].user.name, memberUsers[uid].user.email)
    ensures FindUser(allUsers, Some(uid)).None? && uid !in memberUsers ==> r == UserView(None, None)
  {
    var u := FindUser(allUsers, Some(uid));
    if u.Some? then UserView(u.value.name, u.value.email)
    else if uid in memberUsers then UserView(memberUsers[uid].user.name, memberUsers[uid].user.email)
    else UserView(None, None)
  }

  /** Everything the table is computed from. */
  datatype Inputs = Inputs(members: seq<MP.MemberRow>, groupMembers: map<int, seq<int>>, groups: seq<MP.GroupRef>,
                           allUsers: seq<UserRow>, memberUsers: map<int, MP.UserEntry>)

  function Via(x: Inputs): ViaState {
    FoldPairs(Pairs(ActiveGroupIds(x.members), x.groupMembers))
  }

  /** `allAccessUserIds` in insertion order. */
  function AccessIds(x: Inputs): seq<int> {
    Dedup(DirectIds(x.members) + Via(x).order)
  }

  function RowFor(x: Inputs, uid: int): AccessRow {
    var ids := if uid in Via(x).via then Via(x).via[uid] else [];
    AccessRow(uid, UserFor(uid, x.allUsers, x.memberUsers), DirectLevel(x.members, uid), FoundGroups(x.groups, ids))
  }

  /** The sort key: `(user.name || user.email || "").toLowerCase()`. */
  function SortName(r: AccessRow): string {
    Lower(MP.Or(r.user.name, MP.Or(r.user.email, "")))
  }

  predicate RowLe(a: AccessRow, b: AccessRow) {
    StrLe(SortName(a), SortName(b))
  }

  lemma RowLeTotal()
    ensures Sorting.Total(RowLe)
  {
    forall a: AccessRow, b: AccessRow ensures RowLe(a, b) || RowLe(b, a) {
      StrLeTotal(SortName(a), SortName(b));
    }
  }

  function Unsorted(x: Inputs): (r: seq<AccessRow>)
    ensures |r| == |AccessIds(x)| && forall i :: 0 <= i < |r| ==> r[i] == RowFor(x, AccessIds(x)[i])
  {
    var ids := AccessIds(x);
    seq(|ids|, i requires 0 <= i < |ids| => RowFor(x, ids[i]))
  }

  /** `accessRows`: one row per user with access, ordered by sort name. */
  function AccessRows(x: Inputs): (r: seq<AccessRow>)
    ensures multiset(r) == multiset(Unsorted(x))
    ensures Sorting.Sorted(r, RowLe)
  {
    RowLeTotal();
    Sorting.SortBySorted(Unsorted(x), RowLe);
    Sorting.SortBy(Unsorted(x), RowLe)
  }

  // ---------------------------------------------------------------------
  // What the table shows
  // ---------------------------------------------------------------------

  /** The user has a direct (truthy) user row. */
  predicate HasDirectRow(members: seq<MP.MemberRow>, uid: int) {
    exists i :: 0 <= i < |members| && Truthy(members[i].userId) && members[i].userId.value == uid
  }

  /** The user is listed by a group that has a member row on the project. */
  predicate InActiveGroup(x: Inputs, uid: int) {
    exists g :: g in ActiveGroupIds(x.members) && uid in GroupUsers(x.groupMembers, g)
  }

  /** A user is a key of the Map exactly when an active group lists them. */
  lemma ViaUsers(x: Inputs, uid: int)
    ensures uid in Via(x).order <==> InActiveGroup(x, uid)
    ensures uid in Via(x).order <==> uid in Via(x).via
  {
    var active := ActiveGroupIds(x.members);
    var ps := Pairs(active, x.groupMembers);
    FoldPairsFacts(ps);
    if UserListed(ps, uid) {
      var k :| 0 <= k < |ps| && ps[k].1 == uid;
      var g := ps[k].0;
      assert ps[k] == (g, uid);
      PairsMembers(active, x.groupMembers, g, uid);
    }
    if InActiveGroup(x, uid) {
      var g :| g in active && uid in GroupUsers(x.groupMembers, g);
      PairsMembers(active, x.groupMembers, g, uid);
      var k :| 0 <= k < |ps| && ps[k] == (g, uid);
    }
  }

  /** Under a user, the Map holds exactly the active groups listing them. */
  lemma ViaGroupsOfUser(x: Inputs, uid: int, gid: int)
    requires uid in Via(x).via
    ensures gid in Via(x).via[uid] <==> gid in ActiveGroupIds(x.members) && uid in GroupUsers(x.groupMembers, gid)
  {
    var active := ActiveGroupIds(x.members);
    var ps := Pairs(active, x.groupMembers);
    FoldPairsFacts(ps);
    PairsMembers(active, x.groupMembers, gid, uid);
  }

  lemma AccessIdsFacts(x: Inputs, uid: int)
    ensures uid in AccessIds(x) <==> HasDirectRow(x.members, uid) || InActiveGroup(x, uid)
    ensures Distinct(AccessIds(x))
  {
    ViaUsers(x, uid);
  }

  /** Sorting keeps exactly the rows computed per user. */
  lemma SortedRowsSame(x: Inputs)
    ensures forall r :: r in AccessRows(x) <==> r in Unsorted(x)
  {
    forall r ensures r in AccessRows(x) <==> r in Unsorted(x) {
      assert r in AccessRows(x) <==> r in multiset(AccessRows(x));
      assert r in Unsorted(x) <==> r in multiset(Unsorted(x));
    }
  }

  lemma UnsortedUsers(x: Inputs, uid: int)
    ensures (exists r :: r in Unsorted(x) && r.uid == uid) <==> uid in AccessIds(x)
  {
    var u := Unsorted(x);
    var ids := AccessIds(x);
    if uid in ids {
      var i :| 0 <= i < |ids| && ids[i] == uid;
      assert u[i] in u && u[i].uid == uid;
    }
    if exists r :: r in u && r.uid == uid {
      var r :| r in u && r.uid == uid;
      var i :| 0 <= i < |u| && u[i] == r;
    }
  }

  /** A user has a row exactly when they have a direct user row or belong
      to an active group. */
  lemma RowsAreTheUsersWithAccess(x: Inputs, uid: int)
    ensures (exists r :: r in AccessRows(x) && r.uid == uid)
        <==> HasDirectRow(x.members, uid) || InActiveGroup(x, uid)
  {
    SortedRowsSame(x);
    UnsortedUsers(x, uid);
    AccessIdsFacts(x, uid);
  }

  /** Each row is the one computed for its user, from that user's own row
      and groups only. */
  lemma EveryRowIsItsUsers(x: Inputs, r: AccessRow)
    requires r in AccessRows(x)
    ensures r == RowFor(x, r.uid) && r.uid in AccessIds(x)
  {
    SortedRowsSame(x);
    var u := Unsorted(x);
    var i :| 0 <= i < |u| && u[i] == r;
  }

  /** The direct level shown is the level of the user's own row, or null;
      no group level is ever folded into it. */
  lemma DirectLevelIsOwnRow(x: Inputs, r: AccessRow)
    requires r in AccessRows(x)
    ensures r.directAccessLevel == DirectLevel(x.members, r.uid)
    ensures !HasDirectRow(x.members, r.uid) ==> r.directAccessLevel.None?
  {
    EveryRowIsItsUsers(x, r);
  }

  /** Changing the group memberships or the group list changes no row's
      direct level. */
  lemma GroupsDoNotChangeDirectLevel(x: Inputs, groupMembers: map<int, seq<int>>, groups: seq<MP.GroupRef>, uid: int)
    ensures RowFor(x.(groupMembers := groupMembers, groups := groups), uid).directAccessLevel
         == RowFor(x, uid).directAccessLevel
  {
  }

  /** Group `g` is shown for `uid`: it is the listed group found for an
      active group id whose members include the user. */
  predicate ShownVia(x: Inputs, uid: int, g: MP.GroupRef) {
    exists gid :: gid in ActiveGroupIds(x.members) && uid in GroupUsers(x.groupMembers, gid)
                  && FindGroup(x.groups, gid) == Some(g)
  }

  lemma FoundGroupsIn(groups: seq<MP.GroupRef>, ids: seq<int>, g: MP.GroupRef)
    ensures g in FoundGroups(groups, ids) <==> exists gid :: gid in ids && FindGroup(groups, gid) == Some(g)
  {
    if g in FoundGroups(groups, ids) {
      var k :| 0 <= k < |ids| && FindGroup(groups, ids[k]) == Some(g);
      assert ids[k] in ids;
    }
    if exists gid :: gid in ids && FindGroup(groups, gid) == Some(g) {
      var gid :| gid in ids && FindGroup(groups, gid) == Some(g);
      var k :| 0 <= k < |ids| && ids[k] == gid;
    }
  }

  lemma RowForGroups(x: Inputs, uid: int, g: MP.GroupRef)
    ensures g in RowFor(x, uid).viaGroups <==> ShownVia(x, uid, g)
  {
    var ids := if uid in Via(x).via then Via(x).via[uid] else [];
    FoundGroupsIn(x.groups, ids, g);
    ViaUsers(x, uid);
    if g in RowFor(x, uid).viaGroups {
      var gid :| gid in ids && FindGroup(x.groups, gid) == Some(g);
      ViaGroupsOfUser(x, uid, gid);
    }
    if ShownVia(x, uid, g) {
      var gid :| gid in ActiveGroupIds(x.members) && uid in GroupUsers(x.groupMembers, gid)
                 && FindGroup(x.groups, gid) == Some(g);
      assert InActiveGroup(x, uid);
      ViaGroupsOfUser(x, uid, gid);
    }
  }

  /** The groups shown for a user are exactly the listed groups found for
      the active group ids that list the user. */
  lemma ViaGroupsExact(x: Inputs, r: AccessRow, g: MP.GroupRef)
    requires r in AccessRows(x)
    ensures g in r.viaGroups <==> ShownVia(x, r.uid, g)
  {
    EveryRowIsItsUsers(x, r);
    RowForGroups(x, r.uid, g);
  }

  predicate DistinctRows(a: seq<AccessRow>) {
    forall i, j :: 0 <= i < j < |a| ==> a[i] != a[j]
  }

  lemma {:induction false} CountAtMostOne(a: seq<AccessRow>, v: AccessRow)
    requires DistinctRows(a)
    ensures multiset(a)[v] <= 1
    decreases |a|
  {
    if a != [] {
      var init := a[..|a| - 1];
      assert a == init + [a[|a| - 1]];
      CountAtMostOne(init, v);
    }
  }

  lemma TwiceCountsTwice(b: seq<AccessRow>, i: int, j: int)
    requires 0 <= i < j < |b| && b[i] == b[j]
    ensures multiset(b)[b[i]] >= 2
  {
    assert b == b[..j] + [b[j]] + b[j + 1..];
    assert b[i] in b[..j];
  }

  lemma DistinctPermutation(a: seq<AccessRow>, b: seq<AccessRow>)
    requires DistinctRows(a) && multiset(a) == multiset(b)
    ensures DistinctRows(b)
  {
    forall i, j | 0 <= i < j < |b| ensures b[i] != b[j] {
      if b[i] == b[j] {
        TwiceCountsTwice(b, i, j);
        CountAtMostOne(a, b[i]);
      }
    }
  }

  lemma UnsortedDistinct(x: Inputs)
    ensures DistinctRows(Unsorted(x))
  {
    var u := Unsorted(x);
    var ids := AccessIds(x);
    AccessIdsFacts(x, 0);
    forall i, j | 0 <= i < j < |u| ensures u[i] != u[j] {
      assert u[i].uid == ids[i] && u[j].uid == ids[j];
    }
  }

  /** Each user appears in one row only. */
  lemma EachUserOnce(x: Inputs)
    ensures forall i, j :: 0 <= i < j < |AccessRows(x)| ==> AccessRows(x)[i].uid != AccessRows(x)[j].uid
  {
    var rows := AccessRows(x);
    UnsortedDistinct(x);
    DistinctPermutation(Unsorted(x), rows);
    forall i, j | 0 <= i < j < |rows| ensures rows[i].uid != rows[j].uid {
      EveryRowIsItsUsers(x, rows[i]);
      EveryRowIsItsUsers(x, rows[j]);
    }
  }

  // ---------------------------------------------------------------------
  // The table against the server's rows and the server's check
  // ---------------------------------------------------------------------

  lemma {:induction false} NoGroupIds(rows: seq<MP.MemberRow>)
    requires forall i :: 0 <= i < |rows| ==> rows[i].groupId.None?
    ensures ActiveGroupIds(rows) == []
    decreases |rows|
  {
    if rows != [] {
      NoGroupIds(rows[..|rows| - 1]);
    }
  }

  /** `stored` lists exactly the member rows of the project. */
  predicate ListsProject(stored: seq<Models.ProjectMember>, members: map<(int, int), Models.ProjectMember>, projectId: int) {
    (forall i :: 0 <= i < |stored| ==>
       (projectId, stored[i].userId) in members && members[(projectId, stored[i].userId)] == stored[i])
    && (forall k :: k in members && k.0 == projectId ==> members[k] in stored)
  }

  lemma ServerRowOfUser(stored: seq<Models.ProjectMember>, members: map<(int, int), Models.ProjectMember>,
                        projectId: int, v: MP.MemberRow, uid: int)
    requires ListsProject(stored, members, projectId)
    requires v in MP.ServerRows(stored) && v.userId == Some(uid)
    ensures (projectId, uid) in members && v == MP.FromServer(members[(projectId, uid)])
  {
    var rows := MP.ServerRows(stored);
    var j :| 0 <= j < |rows| && rows[j] == v;
    assert rows[j] == MP.FromServer(stored[j]);
  }

  lemma StoredLevelShown(stored: seq<Models.ProjectMember>, members: map<(int, int), Models.ProjectMember>,
                         projectId: int, uid: int)
    requires Models.ProjectMembersKeyed(members) && Models.LevelsValid(members) && uid != 0
    requires ListsProject(stored, members, projectId)
    ensures (projectId, uid) in members ==> DirectLevel(MP.ServerRows(stored), uid) == Some(members[(projectId, uid)].accessLevel)
    ensures (projectId, uid) !in members ==> DirectLevel(MP.ServerRows(stored), uid).None?
  {
    var rows := MP.ServerRows(stored);
    var d := DirectRow(rows, uid);
    if (projectId, uid) in members {
      var m := members[(projectId, uid)];
      assert m in stored;
      var i :| 0 <= i < |stored| && stored[i] == m;
      assert rows[i] == MP.FromServer(m) && m.userId == uid;
      assert d.Some?;
      ServerRowOfUser(stored, members, projectId, d.value, uid);
      assert Models.IsLevel(m.accessLevel);
    } else if d.Some? {
      ServerRowOfUser(stored, members, projectId, d.value, uid);
    }
  }

  lemma MembersOfListsProject(members: map<(int, int), Models.ProjectMember>, projectId: int)
    requires Models.ProjectMembersKeyed(members)
    ensures ListsProject(ProjectSharing.MembersOf(members, projectId), members, projectId)
  {
    forall k | k in members && k.0 == projectId ensures members[k] in ProjectSharing.MembersOf(members, projectId) {
      ProjectSharing.MembersOfComplete(members, projectId, k);
    }
  }

  /** On the rows the members endpoint returns, the level shown for a user
      is the level of the stored (project, user) row, and nobody is shown
      through a group. */
  lemma ServerRowsShowStoredLevel(members: map<(int, int), Models.ProjectMember>, projectId: int, uid: int)
    requires Models.ProjectMembersKeyed(members) && Models.LevelsValid(members) && uid != 0
    ensures var rows := MP.ServerRows(ProjectSharing.MembersOf(members, projectId));
            ActiveGroupIds(rows) == []
            && ((projectId, uid) in members ==> DirectLevel(rows, uid) == Some(members[(projectId, uid)].accessLevel))
            && ((projectId, uid) !in members ==> DirectLevel(rows, uid).None?)
  {
    var stored := ProjectSharing.MembersOf(members, projectId);
    NoGroupIds(MP.ServerRows(stored));
    MembersOfListsProject(members, projectId);
    StoredLevelShown(stored, members, projectId, uid);
  }

  /** For a user who does not own the project, the server lets them edit
      exactly when the table shows the direct level "editor", and a user
      with no direct level is refused even for viewing, whatever groups the
      table would show. */
  lemma TableMatchesServerCheck(projects: map<int, Models.Project>, members: map<(int, int), Models.ProjectMember>,
                                projectId: int, uid: int)
    requires Models.ProjectMembersKeyed(members) && Models.LevelsValid(members) && uid != 0
    requires projectId in projects && projects[projectId].ownerUserId != uid
    ensures var shown := DirectLevel(MP.ServerRows(ProjectSharing.MembersOf(members, projectId)), uid);
            (Permissions.EnsureProjectAccess(projects, members, projectId, uid, false).Ok? <==> shown == Some("editor"))
            && (shown.None? ==> Permissions.EnsureProjectAccess(projects, members, projectId, uid, true).Err?)
  {
    ServerRowsShowStoredLevel(members, projectId, uid);
  }
}
