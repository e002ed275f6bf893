# LIA_2 access control and record keeping, modelled in Dafny

LIA_2 is a test-management web application: a FastAPI/SQLAlchemy backend
stores users, roles, organisations, projects, project sharing,
organisation groups, request logs of AI calls, test cases and
requirements; React pages show and edit them. This project models the
part of it that decides who may do what, and how the records change:

- the project guards of `permissions.py` (the version the handlers call)
  and the alternative in `project_access.py`, with lemmas showing where
  the two agree and where they part;
- the database of `models.py` as a `Models.Database` class holding one
  map per table, its uniqueness constraints, column defaults and cascades
  as per-table invariants, and the NOT NULL `name` and `role_id` of
  `users` as a commit that refuses a row without them;
- every handler of the backend files in scope (authentication, users,
  roles, organisations, projects, project sharing, groups, request logs,
  test cases, requirements and the four AI endpoints) as a method that
  checks, then commits once; guards and read-only queries are functions;
- the history query of `history.py`, whose router `main.py` does not
  mount (backend/app/main.py:50-59), so no request reaches it;
- the field constraints `schemas.py` declares for registering, naming a
  project or a group, adding a project member and recording a test
  execution; every other body reaches its handler as already valid;
- the helper computations of the React pages: validators and submit
  guards of the register and login pages, the "current access" rows and
  member maps of the project management page, project sorting and member
  labels, test-case text splitting and joining, the readable copy of
  generated test cases, and the endpoint label and badge maps.

Requests are modelled as atomic: each handler is one transaction. An HTTP
error is `Common.Result.Err(status, detail)`. The clock, password hashing,
token generation, JSON parsing and printing, `Date.parse`, `parseInt` and
the language model are parameters of the members that use them. Times
are integers.

## Model

| member | source | states |
|---|---|---|
| Permissions.EnsureProjectAccess | backend/app/permissions.py:9-35 | a granted result is the stored project with that id; every refusal is a 404 or a 403 |
| Permissions.RoleOf | backend/app/models.py:144-148 | a role is found exactly when the user's role id names a stored role, and it is one of the stored roles |
| Permissions.LazyRoleAsWritten | backend/app/models.py:163 | reading `user.role` as written fails with 500 exactly when the user has a role id, and otherwise gives no role |
| Permissions.StoredUserRoleFailsAsWritten | backend/app/models.py:144-148 | for every user the database accepts, reading the role as written fails with 500 |
| Permissions.EnsureProjectAdmin | backend/app/permissions.py:38-52 | managing sharing is only granted to callers who also pass the view check |
| Permissions.EnsureProjectAdminAsWritten | backend/app/permissions.py:38-52 | as written: after the view check, a caller with a role id gets 500; only an owner without a role id passes |
| Permissions.ProjectAdminRefusedAsWritten | backend/app/permissions.py:44-46 | every caller the intended guard admits, stored with a role id, gets 500 as written |
| Permissions.AccessGrantedIff | backend/app/permissions.py:15-35 | access is granted exactly to the owner and to members, and editing also needs the level "editor" (both directions) |
| Permissions.UnknownProjectIsNotFound | backend/app/permissions.py:15-17 | a missing project is a 404 for both guards, whoever asks |
| Permissions.OwnerAlwaysAllowed | backend/app/permissions.py:19-20 | the owner may view and edit without a member row |
| Permissions.NonMemberRefused | backend/app/permissions.py:29-30 | a non-owner without a member row gets 403 "No access to this project" |
| Permissions.EditNeedsExactEditor | backend/app/permissions.py:32-33 | a member may edit exactly when the stored level equals "editor" character for character; otherwise 403 "Not enough permissions" |
| Permissions.CapitalisedEditorRefused | backend/app/permissions.py:32-33 | a member row with level "Editor" does not allow editing |
| Permissions.EditImpliesView | backend/app/permissions.py:32-35 | whoever may edit may also view |
| Permissions.AdminGrantedIff | backend/app/permissions.py:38-50 | sharing is granted exactly to the owner and to members whose role is named "admin" (both directions) |
| Permissions.AdminWithoutMembershipRefused | backend/app/permissions.py:39 | an "admin" who neither owns nor is a member of the project is refused by the view check that runs first |
| ProjectAccess.EnsureProjectAccess | backend/app/project_access.py:11-52 | a granted result is the stored project; every refusal is a 404 or a 403 |
| ProjectAccess.EnsureProjectAdmin | backend/app/project_access.py:55-97 | a granted result is the stored project with that id |
| ProjectAccess.AccessGrantedIff | backend/app/project_access.py:27-52 | access is granted exactly to the owner and to members, and editing needs a level that lower-cases to "editor" (both directions) |
| ProjectAccess.OwnerAlwaysAllowed | backend/app/project_access.py:32-33 | the owner passes both checks whatever the role |
| ProjectAccess.UnknownProjectIsNotFound | backend/app/project_access.py:28-29 | a missing project is a 404 for both checks |
| ProjectAccess.NonMemberRefused | backend/app/project_access.py:45-46 | a non-owner without a member row gets 403 "No access to this project" |
| ProjectAccess.AdminNeedsRole | backend/app/project_access.py:78-83 | a non-owner with a falsy role id, or whose role row is missing, is refused |
| ProjectAccess.AdminGrantedIff | backend/app/project_access.py:88-95 | for a non-owner with an existing role, sharing is granted exactly when the role is named "admin" or flagged as admin |
| ProjectAccess.LowerOfLevel | backend/app/project_access.py:49 | lower-casing leaves the stored levels "viewer" and "editor" unchanged |
| ProjectAccess.AccessVersionsAgreeOnStoredLevels | backend/app/project_access.py:27-52 | on a store whose levels are all "viewer" or "editor", this access check and the one in permissions.py give the same answer for every input |
| ProjectAccess.EditorInCapitalsSplitsVersions | backend/app/project_access.py:49 | a member with level "EDITOR" may edit under this check and is refused under permissions.py |
| ProjectAccess.ExactEditorPassesBoth | backend/app/project_access.py:49 | whoever may edit under permissions.py may edit under this check |
| ProjectAccess.AdminWithoutMembershipSplitsVersions | backend/app/project_access.py:69-97 | an "admin" who is not a member may manage sharing here but not under permissions.py |
| ProjectAccess.FlaggedAdminSplitsVersions | backend/app/project_access.py:91-92 | a role flagged `is_admin` under another name grants sharing here but not under permissions.py |
| ProjectAccess.AdminOfPermissionsPassesHere | backend/app/project_access.py:78-95 | whoever may manage sharing under permissions.py may here too, unless the role id is 0 |
| ProjectAccess.RoleIdZeroSplitsVersions | backend/app/project_access.py:78-79 | with role id 0 naming an "admin" role, a member passes permissions.py and is refused here |
| Models.DefaultAccessLevelIsLevel | backend/app/models.py:104-105 | the column default "viewer" is one of the two levels the sharing handler stores |
| Models.NewId | backend/app/models.py:12 | the id an insert receives is fresh and greater than every id in the table (SQLite rowid allocation) |
| Models.TableRows | backend/app/models.py:9-291 | a whole-table select lists exactly the stored rows, as many as there are |
| Models.FirstKeyWhere | backend/app/models.py:12 | `.first()` on a filtered select gives the smallest matching id, and none exactly when no row matches |
| Models.FindUserByEmail | backend/app/models.py:133 | a lookup by address finds a user with that address, and finds none exactly when nobody has it |
| Models.FindUserByEmailIsTheAddressee | backend/app/models.py:133 | since addresses are unique, the lookup finds the one user who has the address |
| Models.FindToken | backend/app/models.py:224 | a lookup by token value finds a row holding that value, and none exactly when no row holds it |
| Models.FindTokenIsTheHolder | backend/app/models.py:224 | since token values are unique, the lookup finds the one row holding the value |
| Models.Database.constructor | backend/app/models.py:9-291 | an empty database satisfies every table constraint |
| Models.InsertKeepsGroupsValid | backend/app/models.py:35-37 | inserting a group under a fresh id, with a name unused in its organisation, keeps the groups table valid |
| Models.InsertKeepsUsersValid | backend/app/models.py:133 | inserting a user under a fresh id with an unused address keeps addresses unique |
| Models.RemovalKeepsTokensValid | backend/app/models.py:215-227 | deleting token rows keeps the tokens table valid |
| Models.ReplacementKeepsTokensValid | backend/app/models.py:218-224 | writing a user's token row with a value no other token has keeps the tokens table valid |
| Models.NewUserKeepsTokensValid | backend/app/models.py:218-219 | adding a user keeps every token linked to a user |
| Models.OneProjectMemberPerPair | backend/app/models.py:87-89 | at most one project member row per (project, user) pair |
| Models.OneGroupMemberPerPair | backend/app/models.py:59-61 | at most one group membership per (group, user) pair |
| Models.OneTokenPerUser | backend/app/models.py:218-222 | each user holds at most one token |
| Models.DeleteProjects | backend/app/models.py:261-263 | deleting projects deletes exactly their request logs, requirements and member rows, nothing else, and keeps those tables' references valid |
| Models.DeleteUsers | backend/app/models.py:166-169 | deleting users deletes exactly their tokens and memberships, nothing else, and keeps every affected table valid |
| Models.DeleteGroups | backend/app/models.py:51 | deleting groups deletes exactly their memberships and keeps the membership table valid |
| Users.Me | backend/app/users.py:34-36 | the caller's own record carries the caller's id, address and role |
| Users.ListUsers | backend/app/users.py:39-46 | non-administrators get 403 "Admin only" (both directions); administrators get one entry per stored user, each the stored record without its hash, in strictly decreasing id order |
| Users.ListUsersComplete | backend/app/users.py:45-46 | every stored user appears in the list |
| Users.CreateUser | backend/app/users.py:49-75 | 403 for non-administrators, 409 for an address in use, and success in every other case; on success exactly one new user with a fresh id and the submitted fields is added; the tables stay valid |
| Users.GetUser | backend/app/users.py:78-89 | granted exactly to administrators asking for an existing id, answering that user's record; otherwise 403 or 404 |
| Users.UpdateUser | backend/app/users.py:92-131 | 403, 404 and 409 cases, and success in every other case; on success only that user's row changes: a truthy address or password is replaced, every other supplied field is replaced, and missing fields are kept |
| Users.UpdateKeepsUsersValid | backend/app/users.py:105-109 | rewriting a user with an address no other user has keeps addresses unique and tokens linked |
| Users.DeleteUserGuard | backend/app/users.py:140-147 | deletion is allowed exactly for an administrator deleting another, existing user |
| Users.SelfDeletionRefusedFirst | backend/app/users.py:142-143 | an administrator deleting their own id gets 400 even if that row is gone |
| Users.DeleteUserAsWritten | backend/app/users.py:134-151 | the bulk delete removes only the users row and answers what the guard answers |
| Users.BulkDeleteLeavesToken | backend/app/users.py:149 | a deleted user's token is left pointing at no user |
| Users.DeleteUser | backend/app/users.py:134-151 | with the cascades of models.py:166-169, on success exactly the user row, their token, their group and project memberships and the projects they own, with those projects' members, logs and requirements, are removed, and no other row changes; a refusal changes no table; the tables stay valid |
| Users.IsAdmin | backend/app/users.py:14-16 | a caller manages users exactly when their role id is 1 |
| Users.ToOut | backend/app/users.py:19-31 | the answered user carries every column of the row but the password hash |
| Organizations.StoreKeepsOrganizationsValid | backend/app/models.py:13-16 | storing an organisation whose name and number clash with no other keeps names and numbers unique |
| Organizations.CreateOrganization | backend/app/organizations.py:21-45 | the stored organisation has the stripped name and the submitted fields under a fresh id; the answer is 409 "Organization already exists" exactly when the name or number is taken, and then nothing changes |
| Organizations.Clashes | backend/app/models.py:13-16 | another organisation with the name always clashes; without a number, only the name can clash |
| Organizations.Columns | backend/app/organizations.py:65-66 | every column is present, and the name column holds the name |
| Organizations.UnsetFieldUnchanged | backend/app/organizations.py:65-66 | a field the request does not set keeps its value |
| Organizations.SetFieldTaken | backend/app/organizations.py:65-66 | a field the request sets once takes the value it gives |
| Organizations.UpdateOrganization | backend/app/organizations.py:51-75 | 404 for an unknown id; a name set to null gives 409 "Organization conflict"; otherwise the row built from the last value the request sets for each column is answered 409 exactly when another organisation already has its name, and is otherwise stored in place with only that row changing; a refusal changes nothing |
| Organizations.GetOrganization | backend/app/organizations.py:115-128 | 404 exactly for an unknown id, otherwise the stored row |
| Organizations.ListOrganizations | backend/app/organizations.py:103-109 | exactly the stored organisations, as many as there are |
| Organizations.DeleteOrganizationAsWritten | backend/app/organizations.py:81-97 | the bulk delete removes only the organisation row, and answers 404 exactly for an unknown id |
| Organizations.BulkDeleteLeavesMembers | backend/app/organizations.py:94 | after the bulk delete, a user of the organisation still names it |
| Organizations.DeleteContents | backend/app/models.py:29-31 | removes exactly the organisation's users, the projects it or they own, its groups, the tokens of its users, the logs and requirements of those projects and the memberships naming any of them; every other row stays and every table stays valid |
| Organizations.DeleteOrganization | backend/app/organizations.py:81-97 | with the cascades of models.py:29-31, on success the organisation row and exactly the rows its contents cascade to are removed, and nothing names it afterwards; a 404 changes none of the nine tables; every table stays valid |
| Groups.CreateGroup | backend/app/groups.py:12-21 | 400 when the caller has no organisation; a name already used in that organisation fails the unique constraint (500); it fails in no other case, and otherwise exactly one group with that name is added to the caller's organisation under a fresh id |
| Groups.NameLeTotal | backend/app/groups.py:25 | the name order of the group list is total, so sorting by it is well defined |
| Groups.ListGroups | backend/app/groups.py:23-27 | exactly the groups of the caller's organisation, in name order |
| Groups.ListGroupMembers | backend/app/groups.py:29-41 | 404 for a group outside the caller's organisation; otherwise exactly that group's membership rows, in user id order |
| Groups.InCallersOrganization | backend/app/groups.py:31-33 | only an existing group can be in the caller's organisation, and a caller without an organisation has none |
| Groups.AddMember | backend/app/groups.py:43-55 | 404 for a foreign group or for a user outside the organisation; adding an existing member fails the unique constraint (500); it succeeds exactly when none of these applies, and then exactly one new row for the pair is added |
| Groups.RemoveMember | backend/app/groups.py:57-65 | succeeds exactly for a group in the caller's organisation; then the (group, user) row is gone and no other row changes, whether or not it existed |
| Roles.AdminChecksDiffer | backend/app/roles.py:14-17 | a caller with role id 1 whose role is not flagged may manage users but not roles, and a flagged role 2 may manage roles but not users (users.py:14-16) |
| Roles.IsRoleAdmin | backend/app/roles.py:14-17 | the caller passes exactly when their role id names a stored role flagged `is_admin` |
| Roles.RequireAdminAsWritten | backend/app/roles.py:14-17 | as written nobody passes: 500 exactly for a caller with a role id, 403 exactly for one without |
| Roles.RoleAdminRefusedAsWritten | backend/app/roles.py:16 | a caller whose stored role is flagged `is_admin` gets 500 as written |
| Roles.ListRoles | backend/app/roles.py:20-27 | 403 "Admin role required" exactly for callers without a flagged role; otherwise every role, each once, in ascending id order |
| Roles.InsertKeepsRolesValid | backend/app/models.py:121 | inserting a role under a fresh id with an unused name keeps role names unique |
| Roles.CreateRole | backend/app/roles.py:30-47 | 403 for non-administrators, 400 for a taken name, and success in every other case; on success exactly one new role with the given name and flag |
| Roles.UpdateRole | backend/app/roles.py:50-75 | 403, 404 and 400 (a truthy new name that another role has), and success in every other case; on success the name changes only for a truthy, different name, the flag only when given, and only that row changes |
| Roles.DeleteRole | backend/app/roles.py:78-97 | 403, 404, and 400 while some user holds the role; succeeds exactly for an unused existing role, removing only that row |
| Projects.CreateProject | backend/app/projects.py:13-27 | 400 exactly when some project (anyone's) has the name, and success in every other case; then exactly one project owned by the caller is added under a fresh id, without description or organisation |
| Projects.ListProjects | backend/app/projects.py:30-36 | only projects the caller owns, each as stored, in increasing id order |
| Projects.ListProjectsComplete | backend/app/projects.py:35 | every project the caller owns is listed |
| Projects.ToOut | backend/app/projects.py:27 | the answer carries the project's id, name, owner and creation time |
| Projects.CreatedProjectIsListed | backend/app/projects.py:13-36 | a newly created project is listed for its creator |
| Auth.GetCurrentUser | backend/app/auth.py:18-46 | 401 for missing credentials, an unknown token (after stripping), an expired token or a missing user; an expired token row is deleted, and nothing else changes |
| Auth.Register | backend/app/auth.py:49-67 | the handler as evidently intended: 400 for an address in use; a body without a name fails the NOT NULL commit with a 500 and changes nothing; otherwise a new user with the body's profile fields and its role or the default one, then the token; a token value held by another user leaves the user committed without a token |
| Auth.BareUser | backend/app/auth.py:55 | the row as written: a fresh id, the address and the hash, no name and no role |
| Auth.CommitUser | backend/app/models.py:137-148 | the commit succeeds exactly for a row with a name and a role id, storing it as given; otherwise 500 with the IntegrityError |
| Auth.RegisterAsWritten | backend/app/auth.py:49-57 | register as written: 400 for an address in use, otherwise the outcome of committing the bare row |
| Auth.RegisterNeverStoresAsWritten | backend/app/auth.py:54-57 | as written, every registration is refused: 400 for an address in use, otherwise 500 with the IntegrityError |
| Auth.NewUser | backend/app/schemas.py:6-19 | the row with a fresh id, the address, the hash and the body's profile fields, with the body's role or else the default role |
| Auth.ValidatedBodyMeetsNotNull | backend/app/schemas.py:10 | a body the register schema accepts gives a row the NOT NULL columns accept |
| Auth.Login | backend/app/auth.py:70-83 | an unknown address and a wrong password both give 401 "Invalid email or password"; otherwise the user's token is replaced by one valid for seven days, answered with `token_type` "Bearer" |
| Auth.ReplaceToken | backend/app/auth.py:79-81 | the user's token row is replaced in one commit, which fails (500) when another user holds the value |
| Auth.Logout | backend/app/auth.py:86-98 | every outcome: missing credentials, an unknown token and a token whose user is gone give their 401s and leave the tokens as they were; an expired token is deleted and answered "Token expired"; otherwise exactly the presented token row is deleted and "logged_out" is answered |
| Auth.HeldTokenResolves | backend/app/auth.py:31-32 | while a user holds a token, the lookup of that token finds that user |
| ProjectSharing.NormaliseLevelIdempotent | backend/app/project_sharing.py:36 | lower-casing then stripping a level a second time changes nothing more |
| ProjectSharing.LowerOfStripped | backend/app/project_sharing.py:36 | stripping commutes with the lower-casing already done, so a normalised level is lower-case |
| ProjectSharing.OwnerOrAdmin | backend/app/project_sharing.py:11-15 | the owner always passes; anyone else passes only when their role id names a stored role named "admin" |
| ProjectSharing.OwnerOrAdminAsWritten | backend/app/project_sharing.py:11-15 | as written: 500 exactly for a caller with a role id, even the owner; otherwise only the owner passes |
| ProjectSharing.OwnerRefusedAsWritten | backend/app/project_sharing.py:13 | the owner, stored with a role id, passes the intended check and gets 500 as written |
| ProjectSharing.AddMemberGuard | backend/app/project_sharing.py:24-38 | an accepted request names a stored user with the address, in the project's organisation, and a normalised level that is "viewer" or "editor" |
| ProjectSharing.AddMemberRefusals | backend/app/project_sharing.py:24-38 | each refusal (404 project, 403 not owner or admin, 404 user, 400 organisation, 400 level) and the order in which they are checked |
| ProjectSharing.AddMemberAcceptedIff | backend/app/project_sharing.py:24-38 | with unique addresses, the request is accepted exactly when every check passes (both directions) |
| ProjectSharing.GrantedRow | backend/app/project_sharing.py:40-67 | an existing row keeps its id and creation time and takes the new level; otherwise a new row with a fresh id is made for the pair |
| ProjectSharing.GrantKeepsMembersValid | backend/app/project_sharing.py:40-67 | writing the granted row keeps the member table keyed by pair, with valid levels and existing references |
| ProjectSharing.AddProjectMember | backend/app/project_sharing.py:17-67 | a refusal changes nothing; an accepted request writes exactly the granted row (an upsert on the pair) and answers it |
| ProjectSharing.MembersOf | backend/app/project_sharing.py:83-85 | only that project's rows, by increasing user id |
| ProjectSharing.MembersOfComplete | backend/app/project_sharing.py:83-85 | every row of the project is listed |
| ProjectSharing.ListProjectMembers | backend/app/project_sharing.py:69-93 | 404 for an unknown project, 403 for a caller who is not owner or "admin"; Ok exactly for the owner or an "admin" on an existing project, with exactly the project's member rows |
| ProjectSharing.RemoveProjectMember | backend/app/project_sharing.py:95-109 | succeeds exactly for the owner or an "admin", and then only the (project, user) row is gone, whether or not it existed; a refusal changes nothing |
| ProjectSharing.RemoveIdempotent | backend/app/project_sharing.py:107 | removing twice leaves what removing once left |
| ProjectSharing.RemoveKeepsOthers | backend/app/project_sharing.py:107 | removal leaves every other row as it was |
| RequestLogs.EnsureProjectOwner | backend/app/request_logs.py:13-18 | granted exactly to the owner of an existing project, answering that project; any other caller gets 403 "Project not found or not owned by user" |
| RequestLogs.EditorIsNotOwner | backend/app/request_logs.py:13-18 | a member with level "editor" who is not the owner is refused |
| RequestLogs.InsertKeepsRequestLogsValid | backend/app/models.py:273-277 | appending a log for an existing project keeps every log linked to its project |
| RequestLogs.LogAndReturn | backend/app/request_logs.py:21-37 | exactly one log is appended under a fresh id, holding the raw text as output; the answer carries the parsed JSON and the raw text unchanged |
| RequestLogs.HistoryKeys | backend/app/request_logs.py:49-54 | only the project's logs, at most min(limit, 200) of them (no cap for a negative limit), in strictly decreasing id order |
| RequestLogs.HistoryKeysNewest | backend/app/request_logs.py:52-53 | a log left out is older than every log kept, and the list then holds exactly min(limit, 200) logs |
| RequestLogs.History | backend/app/request_logs.py:40-65 | 403 exactly for a caller who does not own the project; otherwise that project's logs as stored, newest first, at most the limit |
| RequestLogs.HistoryShowsNewest | backend/app/request_logs.py:49-65 | a log the history leaves out is older than every log shown, and then min(limit, 200) logs are shown |
| RequestLogs.ToItem | backend/app/request_logs.py:58-63 | a history item carries the log's id, project, endpoint and time |
| RequestLogs.NegativeLimitListsAll | backend/app/request_logs.py:53 | with a negative limit every log of the project is listed (`min` only caps from above) |
| RequestLogs.LimitCappedAt200 | backend/app/request_logs.py:53 | a limit above 200 lists at most 200 logs |
| RequestLogs.LogGuard | backend/app/request_logs.py:74-80 | 404 exactly for an unknown log; for a known one, access is granted exactly when its project exists and the caller owns it |
| RequestLogs.HistoryDetail | backend/app/request_logs.py:68-89 | 404 exactly for an unknown log; granted exactly to the owner of the log's project, answering the stored log |
| RequestLogs.ToLogOut | backend/app/request_logs.py:82-89 | the answered log carries every column: id, project, endpoint, input, output and time |
| RequestLogs.CreateRequestLog | backend/app/request_logs.py:92-115 | 403 for a caller who does not own the project, changing nothing; for the owner, exactly the given log is stored under a fresh id and answered |
| RequestLogs.OrElse | backend/app/request_logs.py:133-136 | a given value replaces the old one, and a missing one keeps it |
| RequestLogs.UpdateRequestLog | backend/app/request_logs.py:118-148 | fails exactly when the guard refuses, changing nothing; otherwise only the given texts of that log change, and its endpoint and project stay |
| RequestLogs.DeleteRequestLog | backend/app/request_logs.py:151-168 | fails exactly when the guard refuses, changing nothing; otherwise exactly that log is removed |
| History.ClampLimit | backend/app/history.py:43 | the limit used lies in 1..500, equals the requested one inside that range, and is 1 below it and 500 above it |
| History.ItemNewerTotal | backend/app/history.py:94 | the newest-first order on timeline entries is total |
| History.RequirementNewerTotal | backend/app/history.py:49 | the newest-first order on requirements is total |
| History.TestCaseNewerTotal | backend/app/history.py:58 | the newest-first order on test cases is total |
| History.RecentRequirementsFacts | backend/app/history.py:46-52 | at most `limit` requirements, each a stored requirement of the project, newest first |
| History.RecentTestCasesFacts | backend/app/history.py:55-61 | at most `limit` test cases, each a stored test case of the project, newest first |
| History.RecentRequirementsNewest | backend/app/history.py:46-52 | a requirement of the project that the fetch leaves out is no newer than any fetched one, and then `limit` requirements are fetched |
| History.RecentTestCasesNewest | backend/app/history.py:55-61 | a test case of the project that the fetch leaves out is no newer than any fetched one, and then `limit` test cases are fetched |
| History.RequirementEntry | backend/app/history.py:66-75 | a requirement's entry is labelled "requirement" and carries its id, project and time |
| History.TestCaseEntry | backend/app/history.py:78-91 | a test case's entry is labelled "test_case" and carries its id, project and time |
| History.Fetched | backend/app/history.py:63-91 | the requirements' entries in order, then the test cases' entries in order |
| History.Timeline | backend/app/history.py:94-97 | sorting and cutting leave at most `limit` entries |
| History.TimelineNewest | backend/app/history.py:94-97 | an entry the cut leaves out is no newer than any entry kept, and then `limit` entries are kept |
| History.CrowdedTimeline | backend/app/history.py:94-97 | when at least `limit` entries are no older than a time, the timeline has `limit` entries, all of them no older than that time |
| History.MergedHistoryFacts | backend/app/history.py:63-97 | the timeline holds at most `limit` entries, newest first, each from one of the project's requirements or test cases |
| History.MergedHistoryShowsNewestRequirement | backend/app/history.py:46-97 | a requirement of the project missing from the timeline is no newer than any entry shown, and then `limit` entries are shown; this holds whatever order equal times take |
| History.MergedHistoryShowsNewestTestCase | backend/app/history.py:46-97 | a test case of the project missing from the timeline is no newer than any entry shown, and then `limit` entries are shown; this holds whatever order equal times take |
| History.Collect | backend/app/history.py:63-91 | the two appending loops build exactly the requirements' entries followed by the test cases' entries |
| History.GetHistory | backend/app/history.py:32-97 | a caller without view access gets the guard's error; Ok exactly when the view check passes, with the merged timeline with the clamped limit, at most that long |
| History.SmallHistoryShowsEveryRequirement | backend/app/history.py:46-97 | when the project has no more requirements and test cases together than the limit, every requirement appears in the timeline |
| TestCases.Somes | backend/app/test_cases.py:68 | the non-null items, never more than there were |
| TestCases.Encode | backend/app/test_cases.py:65-70 | a falsy field stores no text, and exactly a falsy field does; a string is stored as given |
| TestCases.Decode | backend/app/test_cases.py:18-29 | an empty or missing column reads back as no list, and exactly such a column does |
| TestCases.ListRoundTrip | backend/app/test_cases.py:18-29 | a non-empty list, stored and read back, gives its non-null items in order (with `json.loads` inverting `json.dumps`) |
| TestCases.EmptyListIsNoList | backend/app/test_cases.py:66 | an empty list is stored as no text and reads back as no list |
| TestCases.LinesRoundTrip | backend/app/test_cases.py:28-29 | free text that is not a JSON array reads back as its lines, so non-empty newline-free lines joined with "\n" come back unchanged |
| TestCases.ToOut | backend/app/test_cases.py:42-53 | the response carries the row's id, project and title, and its steps decoded |
| TestCases.StoreKeepsTestCasesValid | backend/app/test_cases.py:95 | writing a row whose title no other test case of the project has keeps (project, title) unique |
| TestCases.NewRow | backend/app/test_cases.py:65-87 | the inserted row has a fresh id, the payload's project, requirement, title and description, the encoded steps and no preconditions, since the request schema has no such field |
| TestCases.CreateTestCase | backend/app/test_cases.py:56-106 | without edit access, the guard's error and no change; with it, always a success: either the new row is inserted and answered, or, on a (project, title) clash, nothing changes and the existing row is answered |
| TestCases.ClampLimit | backend/app/test_cases.py:119 | the limit used lies in 1..200, equals the requested one inside that range, and is 1 below it and 200 above it; the requirement listing uses the same clamp (backend/app/requirement.py:160) |
| TestCases.ListedKeys | backend/app/test_cases.py:121-127 | at most n ids, all of the project's test cases, in strictly decreasing order |
| TestCases.ListedKeysNewest | backend/app/test_cases.py:124-125 | a test case left out has a smaller id than every one listed, and then exactly n are listed |
| TestCases.ListTestCases | backend/app/test_cases.py:109-128 | fails exactly when view access fails; otherwise test cases of the project as stored, at most the clamped limit, newest first |
| TestCases.Guard | backend/app/test_cases.py:137-141 | 404 exactly for an unknown id, checked before access; otherwise the access check on the row's own project decides |
| TestCases.GetTestCase | backend/app/test_cases.py:131-142 | 404 exactly for an unknown id; succeeds exactly when the read guard does, answering the stored row |
| TestCases.Updated | backend/app/test_cases.py:158-173 | title, description and expected result are overwritten; steps only by a truthy field; preconditions, id, project, requirement and creation time stay |
| TestCases.UpdateTestCase | backend/app/test_cases.py:145-177 | the guard's error leaves the table as it was; with edit access the commit fails (500) exactly when the new title clashes within the project, and otherwise exactly that row becomes the updated row |
| TestCases.DeleteTestCase | backend/app/test_cases.py:180-194 | the guard's error changes nothing; otherwise exactly that row is removed |
| TestCases.ViewerReadsButCannotWrite | backend/app/test_cases.py:141-156 | a member with level "viewer" passes the read guard and gets 403 from the write guard |
| Requirements.TestCaseToOut | backend/app/requirement.py:16-31 | id, project and title are copied; steps are absent exactly when the stored text is empty or missing, and otherwise are its non-empty lines |
| Requirements.ToOut | backend/app/requirement.py:34-49 | the answer keeps every column of the requirement and lists exactly the given test cases, each converted by `TestCaseToOut` |
| Requirements.Construct | backend/app/schemas.py:211-220 | building the response succeeds exactly when every required field is passed, and then answers the record; otherwise 500 |
| Requirements.EveryAnswerFailsAsWritten | backend/app/requirement.py:39-49 | with the schema as declared, every requirement answer fails validation with 500 |
| Requirements.IntendedSchemaAcceptsEveryAnswer | backend/app/requirement.py:39-49 | with a schema describing the row, every answer validates as the record `ToOut` builds |
| Requirements.LinkedTo | backend/app/requirement.py:130-131 | a test case is linked exactly when its `requirement_id` is the requirement's id |
| Requirements.Linked | backend/app/requirement.py:130-132 | one row per linked test case, each a stored row with that `requirement_id`; every linked stored row is listed, in strictly decreasing id order (`order_by(desc(TestCase.id))`) |
| Requirements.TextOf | backend/app/requirement.py:94-97 | a column gets a value exactly when the item's field is a string |
| Requirements.Cut255 | backend/app/requirement.py:93 | the title is a prefix of at most 255 characters, and a title of at most 255 characters is kept whole |
| Requirements.StepsText | backend/app/requirement.py:100-104 | a list is joined with newlines, a string is kept verbatim, anything else gives no steps |
| Requirements.PlainStringIsTitle | backend/app/requirement.py:84-93 | a string item that is not JSON becomes a test case titled by the stripped string, cut to 255 characters, with no other field |
| Requirements.UntitledGetsDefault | backend/app/requirement.py:92-93 | an object with neither a truthy title nor a truthy name becomes a test case with the default title |
| Requirements.NonObjectSkipped | backend/app/requirement.py:90-91 | an item that is neither an object nor a string is skipped |
| Requirements.Extend | backend/app/requirement.py:83-115 | the loop carries on exactly while no item has raised |
| Requirements.RaisePersists | backend/app/requirement.py:83-115 | once an item has raised, the loop over all items does not complete |
| Requirements.RowsFor | backend/app/requirement.py:106-115 | one row per draft, in order, numbered from the next free id, each linked to the requirement |
| Requirements.PendingRows | backend/app/requirement.py:83-115 | the loop fails exactly when some item raises, and otherwise yields the rows of the kept drafts in order |
| Requirements.AsMap | backend/app/requirement.py:115-117 | the added rows are stored under their ids and under no other key |
| Requirements.BatchKeepsTestCasesValid | backend/app/requirement.py:106-117 | rows with fresh ids and no clashing title keep the test-case table's keys and its (project, title) uniqueness |
| Requirements.NoPairClash | backend/app/requirement.py:117 | two new rows of a committed batch never share a project and title |
| Requirements.NoOldClash | backend/app/requirement.py:117 | no new row of a committed batch shares a project and title with a stored test case |
| Requirements.AddTestCases | backend/app/requirement.py:81-127 | the test-case table becomes exactly the committed table, or stays as it was when the loop raises, and keeps its constraints |
| Requirements.NewRequirement | backend/app/requirement.py:60-69 | the new row has a fresh id, the payload's project, title, description, acceptance criteria and external id, the current time, and source "manual" unless a truthy source is given |
| Requirements.InsertRequirement | backend/app/requirement.py:60-71 | the requirement table gains exactly the new row and keeps its constraints |
| Requirements.CreateRequirement | backend/app/requirement.py:52-132 | without edit access nothing changes and the guard's error is answered; with it the requirement is stored, then either the test cases are committed (or rolled back on a clash) and the answer lists the linked test cases, or an item raised and the answer is 500 with the requirement still stored |
| Requirements.CommittedKeepsValid | backend/app/requirement.py:106-127 | whatever the second transaction stores keeps the test-case constraints |
| Requirements.CommittedOnlyAddsLinkedRows | backend/app/requirement.py:106-127 | stored test cases are never changed, and every new one belongs to the project and is linked to the requirement |
| Requirements.EveryDraftStored | backend/app/requirement.py:106-117 | with no clash, draft i is stored under the i-th fresh id as its row |
| Requirements.ClashRollsBackAll | backend/app/requirement.py:117-127 | a title clash anywhere in the batch leaves the test-case table exactly as it was |
| Requirements.CreateAnswerAsWritten | backend/app/requirement.py:121-132 | the answer as written after the requirement is committed; its failure on a rollback is stated by ClashAnswers500AsWritten |
| Requirements.ClashAnswers500AsWritten | backend/app/requirement.py:121-131 | as written, a title clash leaves the test-case table unchanged and the requirement stored, and answers 500 |
| Requirements.ToOutAsWritten | backend/app/requirement.py:39-49 | as written, an answer that validates is the record; a refusal is a 500 |
| Requirements.RaiseFailsRequest | backend/app/requirement.py:93-127 | an item whose title is not a string makes the request fail after the requirement is stored |
| Requirements.StepsListRoundTrip | backend/app/requirement.py:100-104 | steps given as a list of non-empty lines without newlines are read back as that list |
| Requirements.Guard | backend/app/requirement.py:141-145 | 404 exactly for an unknown id; otherwise the access guard's error, or the stored row |
| Requirements.GetRequirement | backend/app/requirement.py:135-149 | 404 exactly for an unknown id; succeeds exactly when the read guard does, answering the row with its linked test cases |
| Requirements.ListedKeys | backend/app/requirement.py:162-168 | at most n keys, all requirements of the project, in strictly descending order |
| Requirements.ListedKeysNewest | backend/app/requirement.py:162-168 | a requirement of the project left out of the listing is older than every one listed, and then exactly n are listed |
| Requirements.ListRequirements | backend/app/requirement.py:152-172 | fails exactly when the read guard does; otherwise at most the clamped limit of the project's requirements, newest first, each with an empty test-case list |
| Requirements.Updated | backend/app/requirement.py:188-195 | title, description and acceptance criteria are overwritten; source and external id only when given; id, project and creation time stay |
| Requirements.UpdateRequirement | backend/app/requirement.py:175-202 | the guard's error changes nothing; otherwise exactly that row becomes the updated row and the answer lists its linked test cases |
| Requirements.DeleteRequirement | backend/app/requirement.py:205-219 | the guard's error changes nothing; otherwise exactly that row is removed and the test cases are untouched |
| Schemas.ValidateRegister | backend/app/schemas.py:6-19 | a registration body passes exactly with a valid address, a password of 8 to 128 characters and a name of 2 to 120 characters, and is then handed on unchanged; a refusal is 422 |
| Schemas.ShortPasswordRefused | backend/app/schemas.py:8 | a password under 8 characters is refused, on the password field once the address is valid |
| Schemas.MissingNameRefused | backend/app/schemas.py:10 | a body without a name is refused |
| Schemas.ValidateProjectName | backend/app/schemas.py:33-34 | a project name passes exactly when it has 2 to 150 characters |
| Schemas.ValidateGroupName | backend/app/schemas.py:223-224 | a group name passes exactly when it has 2 to 120 characters |
| Schemas.GroupNameIsProjectName | backend/app/schemas.py:224 | every accepted group name (2 to 120 characters) is an accepted project name (2 to 150, line 34), and a 140-character name is one but not the other |
| Schemas.ValidateAddProjectMember | backend/app/schemas.py:248-250 | passes exactly with a valid address and a level that is absent or "viewer"/"editor"; an absent level becomes "viewer" |
| Schemas.ValidateAddByEmailShadowed | backend/app/schemas.py:245-247 | passes exactly with a valid address; an absent level becomes "viewer" |
| Schemas.ValidateAddByEmail | backend/app/schemas.py:279-281 | passes exactly when a level is given, whatever the address and the level's text |
| Schemas.RedefinitionChangesValidation | backend/app/schemas.py:245-281 | the class in force refuses a body without a level that the replaced one would have accepted as "viewer", and accepts a malformed address the replaced one refuses |
| Schemas.LevelCheckFallsToHandler | backend/app/schemas.py:279-281 | the level "owner" passes the schema and is refused by the sharing handler's guard |
| Schemas.LiteralLevelStoredAsIs | backend/app/schemas.py:250 | a level the stricter schema accepts is left unchanged by the sharing handler's normalisation |
| Schemas.ValidateExecution | backend/app/schemas.py:307-311 | passes exactly when the result is absent or one of the five literals; an absent result becomes "Pending" |
| Schemas.ReadField | backend/app/schemas.py:285-291 | reading a body field succeeds exactly for a field the schema declares; any other is a 500 with the AttributeError |
| Schemas.UndeclaredFieldsFailAsWritten | backend/app/test_cases.py:81 | `requirement_id` is not a field of the test-case body, and `title` not of either requirement body, so reading them is a 500 |
| Schemas.LowerCaseResultRefused | backend/app/schemas.py:310 | "passed" in lower case is refused |
| Json.Get | backend/app/requirement.py:93-97 | a key no member has reads as no value |
| Json.Or | backend/app/requirement.py:93-97 | `a or b` is `a` exactly when `a` is truthy, and `b` otherwise |
| Json.Keys | backend/app/requirement.py:83 | the keys iterated over an object are exactly the members' names |
| Json.Iterate | backend/app/requirement.py:83 | a list iterates over its items; iteration fails exactly on null, booleans and numbers |
| Json.PyStr | backend/app/requirement.py:102 | `str` of a string is the string itself |
| Json.StrsOf | backend/app/test_cases.py:25 | skipping nulls never adds items |
| Json.StrsOfStrArray | backend/app/test_cases.py:23-25 | an array of strings converts back to exactly those strings |
| Json.Dumps | backend/app/test_cases.py:68 | the encoding of a list is bracketed |
| Common.Trim | backend/app/project_sharing.py:36 | at most as long as the input, and neither end of the result is whitespace |
| Common.TrimIdempotent | backend/app/project_sharing.py:36 | stripping a stripped string changes nothing |
| Common.TrimEmptyIff | frontend/src/pages/Login.jsx:38-39 | the trimmed text is empty exactly when every character of it is whitespace |
| Common.Lower | backend/app/project_sharing.py:36 | lower-casing keeps the length and maps each character by itself |
| Common.LowerIdempotent | backend/app/project_sharing.py:36 | lower-casing twice is lower-casing once |
| Common.JoinSplit | backend/app/requirement.py:19 | splitting a text on newlines and joining the pieces gives the text back |
| Common.SplitJoin | backend/app/requirement.py:19 | joining pieces without the separator, then splitting, gives the pieces back |
| Common.NonEmptyOnly | backend/app/requirement.py:19 | exactly the non-empty pieces are kept, none of them empty |
| Common.IntToStringInjective | frontend/src/pages/MyProjects.jsx:205 | different numbers print differently |
| Common.StrLeTotal | frontend/src/pages/MyProjects.jsx:68-79 | the string order compares every pair one way or the other |
| Sorting.SortBy | backend/app/history.py:94 | the sorted list holds the same items as the input, as a multiset |
| Sorting.SortBySorted | backend/app/history.py:94 | with a total comparison the sorted list is in order |
| Sorting.SortByMembers | backend/app/history.py:94 | sorting keeps exactly the items it is given |
| Sorting.TakeSortBySorted | backend/app/history.py:94-97 | the first n of the sorted list are in order |
| Sorting.Ascending | backend/app/roles.py:26 | the keys of a set, each once, from smallest to largest |
| Sorting.Descending | backend/app/users.py:45 | the keys of a set, each once, from largest to smallest |
| Sorting.Take | backend/app/history.py:97 | the first n items, or all of them when there are fewer |
| AiEndpoints.EnsureProjectOwner | backend/app/main.py:94-99 | succeeds exactly when the project exists and the caller owns it, answering that project; any failure is 403 with the one message |
| AiEndpoints.OwnerGuardsAgree | backend/app/main.py:94-99 | this guard decides exactly as the request-log module's owner guard |
| AiEndpoints.Endpoint | backend/app/main.py:129-203 | each request kind is logged under its own label, and each label names one kind |
| AiEndpoints.Appendix | backend/app/main.py:167-195 | test-case and risk requests add nothing; a regression request adds the header and its components joined by newlines when the list is non-empty; a summary adds the header and the bug reports when they are non-empty |
| AiEndpoints.InputText | backend/app/main.py:130-195 | the logged input is the request's main text followed by its appendix |
| AiEndpoints.NoComponentsLogsDescription | backend/app/main.py:167-169 | without components the logged input is the change description alone |
| AiEndpoints.NoBugReportsLogsResults | backend/app/main.py:193-195 | without bug reports the logged input is the test results alone |
| AiEndpoints.ComponentsReadBack | backend/app/main.py:167-169 | the logged input starts with the description and the header, and its remaining lines are exactly the components when none holds a newline |
| AiEndpoints.Handle | backend/app/main.py:114-207 | without a key the answer is 500 and nothing is logged; a caller who does not own the project gets 403 and nothing is logged; otherwise exactly one log row is added, under a fresh id, with the endpoint label, the logged input and the model's text, and the model's answer is returned |
| AiEndpoints.MemberCannotCallAi | backend/app/main.py:94-99 | a caller who does not own the project, whatever their membership, is refused with 403 |
| LoginPage.IsProbablyExpired | frontend/src/pages/Login.jsx:6-11 | a missing, empty or unreadable expiry never counts as expired; a readable one is expired exactly when it is not after now |
| LoginPage.OnOpen | frontend/src/pages/Login.jsx:25-35 | without a token the page stays; with one it clears it exactly when it looks expired, and otherwise goes to the projects |
| LoginPage.StoredAfterOpen | frontend/src/pages/Login.jsx:30-34 | a stale token and its expiry are both removed; otherwise storage is unchanged |
| LoginPage.UnreadableExpiryKeepsToken | frontend/src/pages/Login.jsx:8-29 | a token whose expiry cannot be read is kept and the page goes to the projects |
| LoginPage.CleanEmail | frontend/src/pages/Login.jsx:47 | the address sent is the typed one trimmed and lower-cased, never longer |
| LoginPage.SubmittedEmailShape | frontend/src/pages/Login.jsx:37-47 | a form that may be sent sends an address holding "@" of at least two characters, and a non-empty password |
| LoginPage.CleanEmailIdempotent | frontend/src/pages/Login.jsx:47 | cleaning a cleaned address changes nothing |
| LoginPage.LowerTrimmed | frontend/src/pages/Login.jsx:47 | lower-casing a trimmed text leaves it trimmed |
| LoginPage.CanSubmit | frontend/src/pages/Login.jsx:37-40 | nothing is sent while loading; a form that may be sent has an "@" in the trimmed address and a non-empty password |
| LoginPage.JsTruthy | frontend/src/pages/Login.jsx:66-69 | arrays and objects are truthy, even empty; a string is truthy exactly when not empty; null is falsy |
| LoginPage.JsString | frontend/src/pages/Login.jsx:70 | `String` of a string is itself, and of an object "[object Object]" |
| LoginPage.DetailOf | frontend/src/pages/Login.jsx:62-69 | a body that is not a JSON object has no detail |
| LoginPage.RefusalMessage | frontend/src/pages/Login.jsx:64-84 | 401 and 403 show the generic message; otherwise a falsy detail shows "Login failed.", and a truthy one its JavaScript string, or "Something went wrong." when that string is empty; the message is never empty |
| LoginPage.NoAccountLeak | frontend/src/pages/Login.jsx:65-68 | a 401 looks the same whatever body the server sent |
| LoginPage.TextDetailShown | frontend/src/pages/Login.jsx:64-84 | a non-empty text detail is shown exactly as the server sent it |
| LoginPage.ValidationErrorUnreadable | frontend/src/pages/Login.jsx:64-84 | a validation refusal whose detail is a list of error objects shows "[object Object]" |
| LoginPage.EmptyListDetailShowsFallback | frontend/src/pages/Login.jsx:64-84 | an empty list as detail shows "Something went wrong." |
| RegisterPage.EmailShape | frontend/src/pages/Register.jsx:15-19 | an accepted address has an "@" with characters on both sides |
| RegisterPage.EmailOfShape | frontend/src/pages/Register.jsx:15-19 | an address with one "@", no white space, and a "." with characters around it after the "@" is accepted |
| RegisterPage.TwoAtsRefused | frontend/src/pages/Register.jsx:17 | an address with two "@" is refused |
| RegisterPage.ValidateEmail | frontend/src/pages/Register.jsx:15-19 | an accepted address contains "@" and has at least five characters |
| RegisterPage.PasswordMeetsCriteria | frontend/src/pages/Register.jsx:21-24 | fewer than six characters are always refused; an accepted password has no line break |
| RegisterPage.IsSafePositiveIntString | frontend/src/pages/Register.jsx:32-35 | blank or missing is accepted; a leading zero or a minus sign is refused |
| RegisterPage.CanSubmit | frontend/src/pages/Register.jsx:93-98 | a form that may be sent is not loading, has matching passwords of at least six characters and an address with "@" |
| RegisterPage.AcceptedPasswordMeetsServerMinimum | frontend/src/pages/Register.jsx:21-24 | a password the page accepts, written in the Basic Multilingual Plane, has at least the 8 characters the server asks for |
| RegisterPage.LongPasswordPassesPageOnly | frontend/src/pages/Register.jsx:21-24 | a 129-character password with a letter and a digit passes the page and is refused by the server |
| RegisterPage.SanitizeText | frontend/src/pages/Register.jsx:26-30 | a missing value becomes ""; a present one is trimmed |
| RegisterPage.SanitizeIdempotent | frontend/src/pages/Register.jsx:26-30 | sanitising twice is sanitising once |
| RegisterPage.SafeIntIsPositive | frontend/src/pages/Register.jsx:32-35 | an accepted non-empty organisation id is the decimal text of a positive number |
| RegisterPage.LeadingDigitPositive | frontend/src/pages/Register.jsx:34 | digits that do not start with 0 have a positive value |
| RegisterPage.DigitsRoundTrip | frontend/src/pages/Register.jsx:34 | digits without a leading zero are the decimal text of their own value |
| RegisterPage.CanonicalIntAccepted | frontend/src/pages/Register.jsx:32-35 | the decimal text of every positive number is accepted, and the same with a leading zero is not |
| RegisterPage.SubmitError | frontend/src/pages/Register.jsx:93-128 | there is no message exactly when the form may be sent; otherwise the message of the first failing check, in the order address, password, confirmation, organisation id |
| RegisterPage.AddressReportedFirst | frontend/src/pages/Register.jsx:109-123 | a form with a bad address and mismatched passwords reports the address |
| RegisterPage.OrNull | frontend/src/pages/Register.jsx:143-147 | a blank field is sent as null and any other as itself |
| RegisterPage.OrganizationId | frontend/src/pages/Register.jsx:149 | an empty id is sent as null; any other accepted id as the positive number it spells |
| RegisterPage.Payload | frontend/src/pages/Register.jsx:140-150 | the body carries the trimmed address, the password as typed, the fixed Tester role, no name exactly when the trimmed name is blank, and no organisation exactly when the id is empty |
| RegisterPage.BlankNameRefusedByServer | frontend/src/pages/Register.jsx:143 | a blank name passes the page and the server refuses the body |
| RegisterPage.PasswordNotTrimmed | frontend/src/pages/Register.jsx:142 | the password is sent exactly as typed |
| RegisterPage.CapitalisedAddressNotFoundAtLogin | frontend/src/pages/Register.jsx:141 | "Anna@x.se" is registered as typed, and login, which lower-cases it, finds no user |
| RegisterPage.CorrectedPayload | frontend/src/pages/Register.jsx:140-150 | the body as written, with the address also lower-cased |
| RegisterPage.LoginFindsCorrectedAddress | frontend/src/pages/Login.jsx:47 | with the corrected body, an address typed at login that differs only in case and surrounding space is the registered one |
| SelectedProjectPage.Colour | frontend/src/pages/SelectedProject.jsx:92-103 | each of the four endpoints has its own colour, and every other key is grey |
| SelectedProjectPage.EndpointBadge | frontend/src/pages/SelectedProject.jsx:89-104 | the class starts with the shared base and then the colour of the lower-cased endpoint, a missing one counting as "" |
| SelectedProjectPage.BadgeIgnoresCase | frontend/src/pages/SelectedProject.jsx:92 | endpoints that differ only in ASCII case get the same badge |
| SelectedProjectPage.BadgeExamples | frontend/src/pages/SelectedProject.jsx:92-102 | "RISK" is shown as risk; a missing or unknown endpoint is grey |
| SelectedProjectPage.FindProject | frontend/src/pages/SelectedProject.jsx:42 | nothing is found exactly when no project's id prints as the route; what is found is one of the listed projects |
| SelectedProjectPage.RouteSelectsId | frontend/src/pages/SelectedProject.jsx:42 | the route "k" finds a project with id k whenever one is listed |
| SelectedProjectPage.LeadingZeroFindsNothing | frontend/src/pages/SelectedProject.jsx:42 | a route with a leading zero finds no project |
| RequestLogDetailsPage.FeatureLabel | frontend/src/pages/RequestLogDetails.jsx:9-14 | a readable name exists exactly for the four endpoints |
| RequestLogDetailsPage.FeatureName | frontend/src/pages/RequestLogDetails.jsx:8-16 | a mapped endpoint shows its readable name, and any other endpoint shows itself |
| RequestLogDetailsPage.KnownNamesDistinct | frontend/src/pages/RequestLogDetails.jsx:9-14 | two different mapped endpoints show different names |
| RequestLogDetailsPage.NameIsNotAnEndpoint | frontend/src/pages/RequestLogDetails.jsx:9-15 | a readable name is not itself a mapped endpoint |
| RequestLogDetailsPage.EveryAiEndpointNamed | frontend/src/pages/RequestLogDetails.jsx:9-15 | every label an AI handler logs under has a readable name, different from the label |
| TestCasesPage.Show | frontend/src/pages/TestCases.jsx:55 | a present value is shown as `String` shows it (a text as itself, `null` as "null"), a missing one as "undefined" |
| TestCasesPage.ShowTellsNullFromMissing | frontend/src/pages/TestCases.jsx:55 | a `null` title and a missing title render differently, and a number renders as its digits |
| TestCasesPage.BlankTextDisabled | frontend/src/pages/TestCases.jsx:118 | a requirement made only of white space cannot be sent |
| TestCasesPage.GenerateDisabled | frontend/src/pages/TestCases.jsx:118 | the button is disabled while loading and for empty text; an enabled button means not loading and a text with a non-blank character |
| TestCasesPage.CharCount | frontend/src/pages/TestCases.jsx:10 | the count is at least the number of characters, and equals it for text of the Basic Multilingual Plane |
| TestCasesPage.Bulleted | frontend/src/pages/TestCases.jsx:53 | missing preconditions give an empty text |
| TestCasesPage.Numbered | frontend/src/pages/TestCases.jsx:54 | missing steps give an empty text |
| TestCasesPage.Section | frontend/src/pages/TestCases.jsx:52-56 | the section of the i-th case opens with "# " and its number i + 1 |
| TestCasesPage.Sections | frontend/src/pages/TestCases.jsx:52-56 | one section per case, in order, each numbered by its position |
| TestCasesPage.CopyReadable | frontend/src/pages/TestCases.jsx:49-59 | nothing is copied exactly when there are no cases; otherwise the sections joined by the separator |
| TestCasesPage.SingleCaseIsItsSection | frontend/src/pages/TestCases.jsx:49-59 | one case copies as its own section, opening "# 1." |
| TestCasesPage.NumberedStepsReadBack | frontend/src/pages/TestCases.jsx:54 | the steps text has one line per step, line k being step k with its number |
| TestCasesPage.NoNewlineInLine | frontend/src/pages/TestCases.jsx:54 | numbering a step without a newline adds none |
| TestCasesPage.BulletsReadBack | frontend/src/pages/TestCases.jsx:53 | the preconditions text has one line per precondition, line k being "- " and precondition k |
| ManageTestCasesPage.OrEmpty | frontend/src/pages/ManageTestCases.jsx:61-65 | a present field is kept and a missing one becomes "" |
| ManageTestCasesPage.JoinedLines | frontend/src/pages/ManageTestCases.jsx:63-64 | a missing list becomes "" |
| ManageTestCasesPage.NumericId | frontend/src/pages/ManageTestCases.jsx:54-59 | a number is its own id, null reads as 0, a missing id as none, and a text by the integrality parameter |
| ManageTestCasesPage.PopulateForEdit | frontend/src/pages/ManageTestCases.jsx:54-66 | the editing id is the numeric id; the form holds the case's fields, missing ones as "", lists one item per line |
| ManageTestCasesPage.DropCarriageReturn | frontend/src/pages/ManageTestCases.jsx:78 | a carriage return at the end of a piece is dropped and nothing else changes |
| ManageTestCasesPage.RegexPieces | frontend/src/pages/ManageTestCases.jsx:78 | the pieces are the pieces between line feeds, each without a final carriage return |
| ManageTestCasesPage.Trimmed | frontend/src/pages/ManageTestCases.jsx:78 | each piece is trimmed, and there is one per piece |
| ManageTestCasesPage.TrimDropsCarriageReturn | frontend/src/pages/ManageTestCases.jsx:78 | trimming a piece gives the same whether or not its final carriage return was dropped |
| ManageTestCasesPage.LinesIgnoreCarriageReturns | frontend/src/pages/ManageTestCases.jsx:78-79 | splitting on the pattern gives the same lines as splitting on line feeds |
| ManageTestCasesPage.TrimmedWellFormed | frontend/src/pages/ManageTestCases.jsx:78 | trimmed pieces without line feeds stay without them and are their own trim |
| ManageTestCasesPage.LinesWellFormed | frontend/src/pages/ManageTestCases.jsx:78-79 | every line sent is non-empty, trimmed and without a line feed |
| ManageTestCasesPage.LinesOfJoined | frontend/src/pages/ManageTestCases.jsx:63-78 | joining items one per line and splitting again gives the items trimmed, without empty ones |
| ManageTestCasesPage.LinesIdempotent | frontend/src/pages/ManageTestCases.jsx:63-78 | submitting the lines of a text as a text again gives the same lines |
| ManageTestCasesPage.SubmitPayload | frontend/src/pages/ManageTestCases.jsx:74-81 | the body has the form's title, description and expected result, and the lines of its steps and preconditions |
| ManageTestCasesPage.Submit | frontend/src/pages/ManageTestCases.jsx:69-95 | nothing is sent exactly when the held form lacks preconditions; otherwise the payload of the form |
| ManageTestCasesPage.ResetAsWritten | frontend/src/pages/ManageTestCases.jsx:89 | the reset as written clears title, description, steps and expected result and leaves no preconditions key |
| ManageTestCasesPage.Reset | frontend/src/pages/ManageTestCases.jsx:89 | the corrected reset clears every field, preconditions included, to "" |
| ManageTestCasesPage.NextSubmitFailsAsWritten | frontend/src/pages/ManageTestCases.jsx:89 | after the reset as written, the next case is never sent, whatever is typed into the other fields |
| ManageTestCasesPage.NextSubmitSendsAfterReset | frontend/src/pages/ManageTestCases.jsx:89 | after a reset that clears every field, the next case is sent with its title and steps and no preconditions |
| ManageTestCasesPage.Dispatch | frontend/src/pages/ManageTestCases.jsx:83-87 | the case is updated exactly when the editing id is present and not 0, and then under that id |
| ManageTestCasesPage.EditRoundTrip | frontend/src/pages/ManageTestCases.jsx:54-87 | editing a listed case and submitting at once sends its steps and preconditions back trimmed and without empties, and updates exactly when its id is a non-zero integer |
| ManageTestCasesPage.NullIdCreates | frontend/src/pages/ManageTestCases.jsx:54-86 | a case whose id is null gets editing id 0 and is created, not updated |
| ManageTestCasesPage.NonNumericIdCreates | frontend/src/pages/ManageTestCases.jsx:54-86 | a case without an integral id is created, not updated |
| ManageTestCasesPage.ImportedList | frontend/src/pages/ManageTestCases.jsx:131-132 | an array is kept; any other truthy JSON value is converted with `String` and split like the form's text; a falsy value or a missing field gives an empty list |
| ManageTestCasesPage.FalsyScalarsGiveNoSteps | frontend/src/pages/ManageTestCases.jsx:131 | `0`, `false` and "" give no steps |
| ManageTestCasesPage.NumberGivesOneStep | frontend/src/pages/ManageTestCases.jsx:131 | the number 5 gives the one step "5" |
| ManageTestCasesPage.Keys | frontend/src/pages/ManageTestCases.jsx:119 | one compared title per listed case, trimmed and lower-cased |
| ManageTestCasesPage.FirstIndex | frontend/src/pages/ManageTestCases.jsx:119 | the first position of a compared title, or none exactly when no listed case has it |
| ManageTestCasesPage.Import | frontend/src/pages/ManageTestCases.jsx:113-139 | an existing case is loaded exactly when one listed case's title matches after trimming and lower-casing; otherwise the body built from the imported case is created |
| ManageTestCasesPage.ImportTwiceCreatesOnce | frontend/src/pages/ManageTestCases.jsx:117-125 | once a case created by import is listed, importing the same case again loads it |
| ManageTestCasesPage.TitleKeyIdempotent | frontend/src/pages/ManageTestCases.jsx:119 | a title already in compared form compares as itself |
| ManageTestCasesPage.ImportSplitsLikeSubmit | frontend/src/pages/ManageTestCases.jsx:131 | steps imported as text are split exactly as the form splits them |
| MyProjectsPage.OrderOf | frontend/src/pages/MyProjects.jsx:68-79 | a key other than "name_asc", "name_desc" and "created_asc" orders newest first |
| MyProjectsPage.OrderTotal | frontend/src/pages/MyProjects.jsx:68-79 | every selectable order compares each pair of projects one way or the other |
| MyProjectsPage.SortedProjects | frontend/src/pages/MyProjects.jsx:68-79 | the same projects, as a multiset, in the selected order |
| MyProjectsPage.UnknownKeyIsNewestFirst | frontend/src/pages/MyProjects.jsx:75-78 | an unknown sort key sorts exactly as "created_desc" |
| MyProjectsPage.UnnamedFirstByName | frontend/src/pages/MyProjects.jsx:69-70 | under "name_asc" projects without a name all sort with the empty name |
| MyProjectsPage.ActiveAfterFetch | frontend/src/pages/MyProjects.jsx:139-143 | without an active project the first listed one becomes active; otherwise the active one stays |
| MyProjectsPage.ActiveProject | frontend/src/pages/MyProjects.jsx:164 | the active project is a listed one with the active id, and there is none exactly when no listed project has that id |
| MyProjectsPage.FirstBecomesActive | frontend/src/pages/MyProjects.jsx:139-164 | after loading a non-empty list with no active project, the first listed project is the active one |
| MyProjectsPage.StaleActiveKept | frontend/src/pages/MyProjects.jsx:139-164 | an active id that no loaded project has is kept, and then no project is active |
| MyProjectsPage.LoadMembers | frontend/src/pages/MyProjects.jsx:174-198 | the user and group maps are those the rows give, taken in order; the project management page runs the same loop (frontend/src/pages/ManageProject.jsx:137-151) |
| MyProjectsPage.MapsOfKeys | frontend/src/pages/MyProjects.jsx:186-194 | a user is recorded exactly when some row has both a user object and that user id, and the group map has the same keys |
| MyProjectsPage.LastRowWins | frontend/src/pages/MyProjects.jsx:186-194 | the last row recording a user decides its entry and its groups |
| MyProjectsPage.ServerRows | backend/app/project_sharing.py:86-93 | one page row per stored member row, in order |
| MyProjectsPage.ServerRowsRecordNobody | frontend/src/pages/MyProjects.jsx:186-194 | the rows the members endpoint returns carry no user object, so no user is recorded |
| MyProjectsPage.Or | frontend/src/pages/MyProjects.jsx:205 | a non-empty value is kept, anything else falls back |
| MyProjectsPage.MemberLabel | frontend/src/pages/MyProjects.jsx:201-213 | never empty; a user row by the recorded name or address, then the row's address, then "User ID: n"; a group row by its name, then its id; otherwise "Member" |
| MyProjectsPage.UserRowIgnoresGroup | frontend/src/pages/MyProjects.jsx:203-206 | a user row is labelled the same whatever group fields it carries |
| MyProjectsPage.ServerMembersLabelledById | frontend/src/pages/MyProjects.jsx:201-206 | every member the endpoint returns is shown as "User ID: n" |
| MyProjectsPage.AddUserMember | frontend/src/pages/MyProjects.jsx:268-285 | nothing without a project; a blank address is refused on the page; otherwise the trimmed address is posted with the level |
| MyProjectsPage.PostedEmailIsTrimmed | frontend/src/pages/MyProjects.jsx:270-274 | a posted address is non-empty and already trimmed, and an address of white space is never posted |
| ManageProjectPage.TokenExpired | frontend/src/pages/ManageProject.jsx:13-19 | a missing, empty or unreadable expiry is not expired; a readable one is expired exactly when it is not after now |
| ManageProjectPage.SameAsLoginCheck | frontend/src/pages/ManageProject.jsx:13-19 | the expiry test decides exactly as the login page's |
| ManageProjectPage.CreateGroup | frontend/src/pages/ManageProject.jsx:184-196 | no request exactly when the trimmed name is empty; otherwise the trimmed name is posted |
| ManageProjectPage.AddUserToGroup | frontend/src/pages/ManageProject.jsx:211-227 | refused exactly when a group or a user is not selected; otherwise the user id is posted to the group |
| ManageProjectPage.FindUser | frontend/src/pages/ManageProject.jsx:277 | a found user is a loaded one with that id, and none is found exactly when no loaded user has it |
| ManageProjectPage.AddUserMember | frontend/src/pages/ManageProject.jsx:270-292 | no selection and an unknown user are refused with their messages; a posted request carries the chosen level and the address of the selected loaded user |
| ManageProjectPage.MemberRequestNeedsLoadedUser | frontend/src/pages/ManageProject.jsx:272-281 | a request goes out exactly for a selection that names a loaded user |
| ManageProjectPage.ActiveGroupIds | frontend/src/pages/ManageProject.jsx:377-379 | exactly the truthy group ids of the member rows |
| ManageProjectPage.DirectIds | frontend/src/pages/ManageProject.jsx:391-393 | exactly the truthy user ids of the member rows |
| ManageProjectPage.PairsOf | frontend/src/pages/ManageProject.jsx:384-387 | one (group, user) pair per entry of the group, in order |
| ManageProjectPage.PairsMembers | frontend/src/pages/ManageProject.jsx:382-389 | the loops visit (g, u) exactly when g is an active group and u one of its entries |
| ManageProjectPage.AddNew | frontend/src/pages/ManageProject.jsx:387 | adding to a set holds the new item and the old ones and nothing else |
| ManageProjectPage.UsersViaActiveGroups | frontend/src/pages/ManageProject.jsx:381-389 | the nested loops build the map of users to groups that the visited pairs give, in order |
| ManageProjectPage.FoldPairsFacts | frontend/src/pages/ManageProject.jsx:381-389 | the map's keys are the users of the visited pairs, each once, and under each user exactly the groups paired with them |
| ManageProjectPage.Dedup | frontend/src/pages/ManageProject.jsx:392-395 | the set keeps every id and holds each once |
| ManageProjectPage.DirectRow | frontend/src/pages/ManageProject.jsx:399 | a found row is a member row of that user, and none is found exactly when no member row has that user id |
| ManageProjectPage.DirectLevel | frontend/src/pages/ManageProject.jsx:411 | a shown level is the non-empty level of the user's own row; without a row no level is shown |
| ManageProjectPage.FindGroup | frontend/src/pages/ManageProject.jsx:402 | a found group is a listed one with that id, and none is found exactly when no listed group has it |
| ManageProjectPage.FoundGroups | frontend/src/pages/ManageProject.jsx:400-403 | exactly the listed groups found for the given ids |
| ManageProjectPage.UserFor | frontend/src/pages/ManageProject.jsx:404-407 | a loaded user first, then the recorded member user, otherwise an empty user |
| ManageProjectPage.RowLeTotal | frontend/src/pages/ManageProject.jsx:415-419 | the row order compares every pair one way or the other |
| ManageProjectPage.Unsorted | frontend/src/pages/ManageProject.jsx:397-414 | one row per user with access, in insertion order, each computed for its user |
| ManageProjectPage.AccessRows | frontend/src/pages/ManageProject.jsx:376-420 | the same rows as the unsorted list, as a multiset, ordered by lower-cased name |
| ManageProjectPage.ViaUsers | frontend/src/pages/ManageProject.jsx:381-389 | a user is a key of the map exactly when an active group lists them |
| ManageProjectPage.ViaGroupsOfUser | frontend/src/pages/ManageProject.jsx:381-389 | under a user the map holds exactly the active groups that list them |
| ManageProjectPage.AccessIdsFacts | frontend/src/pages/ManageProject.jsx:391-395 | a user has access exactly when they have a direct row or an active group lists them, and each is listed once |
| ManageProjectPage.SortedRowsSame | frontend/src/pages/ManageProject.jsx:415-419 | sorting keeps exactly the rows computed per user |
| ManageProjectPage.RowsAreTheUsersWithAccess | frontend/src/pages/ManageProject.jsx:376-420 | a user has a row exactly when they have a direct user row or belong to an active group |
| ManageProjectPage.EveryRowIsItsUsers | frontend/src/pages/ManageProject.jsx:397-414 | each row is the one computed for its user, a user with access |
| ManageProjectPage.DirectLevelIsOwnRow | frontend/src/pages/ManageProject.jsx:399-411 | a row's level is its user's own level, or none without a direct row |
| ManageProjectPage.GroupsDoNotChangeDirectLevel | frontend/src/pages/ManageProject.jsx:399-411 | changing the group memberships or the group list changes no row's direct level |
| ManageProjectPage.RowForGroups | frontend/src/pages/ManageProject.jsx:400-403 | a group is shown for a user exactly when it is a listed group found for an active group listing them |
| ManageProjectPage.ViaGroupsExact | frontend/src/pages/ManageProject.jsx:400-403 | the groups shown in a row are exactly the listed active groups of its user |
| ManageProjectPage.EachUserOnce | frontend/src/pages/ManageProject.jsx:392-419 | no user appears in two rows |
| ManageProjectPage.NoGroupIds | frontend/src/pages/ManageProject.jsx:377-379 | rows without group ids give no active group |
| ManageProjectPage.StoredLevelShown | frontend/src/pages/ManageProject.jsx:399-411 | with rows listing exactly the project's stored members, a user's level shown is the stored level, or none without a stored row |
| ManageProjectPage.ServerRowsShowStoredLevel | backend/app/project_sharing.py:83-93 | on the rows the members endpoint returns, nobody is shown through a group and each user's level is the stored one |
| ManageProjectPage.TableMatchesServerCheck | backend/app/permissions.py:9-35 | for a user who does not own the project, the server lets them edit exactly when the table shows the level "editor", and refuses even viewing to a user the table shows no level for |

## Left out

- The language model calls, prompt templates and the JavaScript AI service (`ai.py`, `app.py`, the Express server and its schemas) are not part of this model. Each AI endpoint takes the raw and parsed replies as parameters.
- AiEndpoints.Handle: the key check and JSON error handling inside `call_ai_json` (backend/app/ai.py), along with its 502 reply, are not modelled. Only the endpoint's own key check is.
- The ML training and prediction code and the engine and session setup are not part of this model. They are floating-point and file I/O code.
- bcrypt hashing and verification, `secrets` token generation and the clock are parameters. Their own properties (a hash that verifies only its password, tokens that never collide) are not modelled.
- `json.loads` and Python's `str()` of decoded JSON values are parameters (`loads`, `repr`). `json.dumps` is modelled only for lists of strings (`Json.Dumps`). Where a lemma needs `loads` to read back what `Dumps` wrote, that is a requirement on the parameter.
- `localeCompare` is modelled as code-point lexicographic order (`Common.StrLe`). Locale collation is not modelled.
- `toLowerCase`/`.lower()` fold ASCII letters only. Python's `str.strip` and JavaScript's `trim` have separate whitespace predicates, but no Unicode case folding or normalisation is modelled.
- `Date.parse`/`new Date` are a parameter returning an optional integer. A NaN date in MyProjectsPage.SortedProjects (where `ad - bd` is NaN) is not modelled. Missing dates are 0, as in the source.
- Sorting: the model sorts with a stable insertion sort (`Sorting.SortBy`). JavaScript's `Array.prototype.sort` and Python's `list.sort` are stable too, so for a total order the results are the same.
- `Number(...)`, `Number.isInteger` and `parseInt` are parameters of the page helpers that use them, except in RegisterPage.OrganizationId, where `Number` of an accepted id is its exact digit value.
- RegisterPage.OrganizationId: `Number` rounds a digit string above 2^53 to the nearest double, and the pattern at frontend/src/pages/Register.jsx:33 bounds no length, so a very long id is sent as a different number. The model sends the exact value; floating point is not modelled.
- Requirements.ToOut: the record it builds is what the handlers evidently mean to answer. As written, the declared response schema rejects every such record (see Findings: Requirements.EveryAnswerFailsAsWritten), so every requirement answer of backend/app/requirement.py is a 500; the handlers' contracts state the intended answer.
- LoginPage.RefusalMessage: numbers in the reply body are integers (`Json.Json`), so `String` of a fractional number is not modelled.
- History.MergedHistoryFacts: `ORDER BY created_at DESC` (backend/app/history.py:49, :58) leaves the order of equal timestamps to the database before `LIMIT` cuts, and the final sort keeps that order. The model fixes one tie order (smaller id first, since it sorts the rows stably from key order), so which of several equal-time entries survive the cut is the model's choice, not the source's. The newest-kept lemmas (History.MergedHistoryShowsNewestRequirement, History.MergedHistoryShowsNewestTestCase, History.RecentRequirementsNewest, History.RecentTestCasesNewest) speak only of times, so they hold for every tie order.
- History.Timeline: the same fixed tie order applies to the merged sort.
- History.GetHistory: the source sorts by `str(created_at)`, while the model compares the integer times. The two agree for timestamps printed in the same format.
- Projects.ListProjects, Groups.ListGroupMembers and ProjectSharing.MembersOf: these SQL queries have no ORDER BY, so the database promises no order. The model fixes key order, and their contracts state that order.
- Organizations.ListOrganizations: its query has no ORDER BY either. The model returns rows in key order, and the contract states only the set of rows.
- Unique-constraint violations that the source detects only on commit (an IntegrityError) are modelled as a check before the write that returns the same status. Rollback is implicit because nothing is written.
- TestCases.CreateTestCase: the path where the duplicate title is present but cannot be reloaded (a 500 in the source) cannot arise in an atomic model, so it is not modelled.
- The `TestCase` table is absent from `models.py`. The model gives it the fields the handlers use and a unique (project, title) pair, which the duplicate fallback presumes. As written, `from .models import TestCase` (backend/app/test_cases.py:9, backend/app/requirement.py:9, backend/app/history.py:8) raises ImportError, and backend/app/main.py:18-19 imports those routers, so the application stops at startup and no endpoint ever answers. Every handler contract in this model states the behaviour with that table supplied.
- Fields that handlers read but the request schemas lack (`payload.title` and the other requirement columns, `payload.requirement_id` of test cases) are taken as given, so the handlers' contracts state the evidently intended behaviour. As written, reading them is a 500 (see Findings: Schemas.UndeclaredFieldsFailAsWritten).
- TestCases.CreateTestCase: as written, `payload.requirement_id` (backend/app/test_cases.py:81) is a 500 for every request that passes the access check; the contract states the intended insert.
- Requirements.UpdateRequirement: as written, `payload.title` (backend/app/requirement.py:188) is a 500 for every request that passes the access check; the contract states the intended update.
- TestCases.TestCaseIn: its `steps` field accepts a list with null items or a plain text as well as a list of strings, a superset of the schema's `Optional[List[str]]` (backend/app/schemas.py:289). The extra shapes are the ones the handlers' decoding handles.
- The test-case request schema has no `preconditions`, so the handlers' `getattr(payload, "preconditions", None)` (backend/app/test_cases.py:73, :167) never finds one: the model's request has no such field, and the handlers never set the column.
- `User.name` and `User.roleId` are optional so that the row register builds as written (backend/app/auth.py:55) can be stated; `Models.MeetsNotNull` says when the database takes a row. Other NOT NULL columns are always supplied by the handlers and are not checked.
- The request bodies whose constraints are not modelled: the AI texts of `BaseIn` (`min_length=5`, backend/app/schemas.py:54-63 and 88-90), the organisation fields (116-132), role names (145-151), `UserCreateIn` and `UserUpdateIn` (169-191), the requirement text (`text: str = Field(min_length=10)`, 203 and 209) and the test-case title (287). Their handlers take the bodies as given.
- Requirements.CreateRequirement: a description or expected result that is not a string is handed to the column as it is (backend/app/requirement.py:94, :97). The `TestCase` class is missing from `models.py`, so the source does not fix what such a value becomes. The model stores `None` for it.
- Requirements.PlainStringIsTitle: the request field `test_cases: Optional[List[dict]]` (backend/app/schemas.py:206) refuses an item that is a plain string with 422 before the handler runs. This lemma and the string branch of the import (backend/app/requirement.py:84-88) therefore describe handler code that a validated request never reaches.
- Schemas.ValidateRegister: pydantic's 422 lists every failing field, while the model's detail names only the first one that fails (email, then password, then name).
- Pydantic's `EmailStr` checks and domain normalisation are not modelled. Email fields are plain strings.
- ManageProjectPage and MyProjectsPage: group member entries are user ids. JavaScript object keys of `usersMap` are strings in the source and integers in the model. Rows of the members endpoint carry no nested user object, because the backend returns none.
- RequestLogDetailsPage.FeatureName: inherited keys of the `mapping` object (`"constructor"`, `"toString"`) are not modelled. Every endpoint other than the four listed labels maps to itself.
- fetch, localStorage, navigation, timers, abort controllers and rendering are left out of the pages. Only their helper computations are modelled; fetching a payload is a parameter.
- Concurrency between requests and async/await scheduling are not modelled, because every handler is one atomic step. What the async session cannot do on the spot is modelled where the handlers hit it: a lazy `user.role` and a row expired by a rollback (see Findings).
- Roles.IsRoleAdmin: the intended check, which reads the caller's role row. As written, `require_admin` reads the lazy `user.role` and answers 500 for every caller with a role id (Roles.RequireAdminAsWritten).
- Roles.AdminChecksDiffer: compares the intended role check with the users' check; as written no caller passes the role check at all.
- Roles.ListRoles: states the intended listing; as written every request is a 500 or a 403 before anything is read.
- Roles.CreateRole: states the intended insert; as written every request is a 500 or a 403 and nothing is written.
- Roles.UpdateRole: states the intended update; as written every request is a 500 or a 403 and nothing is written.
- Roles.DeleteRole: states the intended deletion; as written every request is a 500 or a 403 and nothing is written.
- ProjectSharing.OwnerOrAdmin: the intended check. As written, `ensure_owner_or_admin` reads the lazy `user.role` even for the owner, so every caller with a role id gets 500 (ProjectSharing.OwnerOrAdminAsWritten).
- ProjectSharing.AddMemberGuard: after the 404 for an unknown project, the 403 stands where, as written, every caller with a role id gets 500.
- ProjectSharing.AddMemberRefusals: as written, a 500 comes right after the project lookup for every caller with a role id.
- ProjectSharing.AddMemberAcceptedIff: as written, a request is accepted only from an owner without a role id, which the database does not store.
- ProjectSharing.AddProjectMember: states the intended upsert; as written the request is a 500 after the project lookup and nothing is written.
- ProjectSharing.ListProjectMembers: states the intended listing; as written the request is a 500 after the project lookup.
- ProjectSharing.RemoveProjectMember: states the intended removal; as written the request is a 500 after the project lookup and nothing is removed.
- Permissions.EnsureProjectAdmin: the intended guard. As written, `getattr(user, "role", None)` reads the lazy relationship, and its default does not catch the failure, so a caller with a role id gets 500 after the view check (Permissions.EnsureProjectAdminAsWritten). No handler calls it.
- Permissions.AdminGrantedIff: states who the intended guard admits; as written only an owner without a role id is admitted.
- Requirements.CreateRequirement: on a title clash, the contract answers the stored requirement with its unchanged test cases. As written, the rollback expires `req`, and reading `req.id` (backend/app/requirement.py:130) answers 500 (Requirements.ClashAnswers500AsWritten).
- Auth.Register: states the evidently intended registration. As written every registration is refused (Auth.RegisterNeverStoresAsWritten).
## Findings

| source | as written | input that shows it | evidently intended | confidence | as-written member | corrected member |
|---|---|---|---|---|---|---|
| backend/app/users.py:149 | the user is removed by a bulk `delete(User)` statement, which skips the ORM cascades that `User` declares (models.py:166-169) | deleting a user who holds a token leaves a token whose user no longer exists | the user's token, group and project memberships and owned projects go with the user | not executed; the database-level `ON DELETE CASCADE` would catch the token only when SQLite foreign keys are switched on, which the engine setup outside this model decides | Users.DeleteUserAsWritten, Users.BulkDeleteLeavesToken | Users.DeleteUser |
| backend/app/organizations.py:94 | the organisation is removed by a bulk `delete(Organization)` statement, which skips the cascades to users, projects and groups (models.py:29-31) | deleting an organisation with one user leaves that user naming a missing organisation | the organisation's users, projects and groups go with it | not executed | Organizations.DeleteOrganizationAsWritten, Organizations.BulkDeleteLeavesMembers | Organizations.DeleteOrganization |
| frontend/src/pages/Register.jsx:141 | the registration payload sends the email trimmed but not lower-cased, while the login page sends it lower-cased (Login.jsx:47) and the server compares exactly | registering as "Anna@x.se" and logging in with "Anna@x.se" finds no user | register sends the same normalised address as login | not executed | RegisterPage.CapitalisedAddressNotFoundAtLogin | RegisterPage.CorrectedPayload, RegisterPage.LoginFindsCorrectedAddress |
| backend/app/requirement.py:39-49 | `_req_to_out` builds `RequirementOut` from the row's id, project, title, description, acceptance criteria, source, external id, test cases and time, while the schema (backend/app/schemas.py:211-220) requires `requirement_text`, `predicted_category` and `confidence` | any requirement read, listed non-empty, created or updated: the missing `requirement_text` fails validation and the server answers 500 | a response schema that describes the requirement row, so the record is answered | not executed | Requirements.ToOutAsWritten, Requirements.EveryAnswerFailsAsWritten | Requirements.ToOut, Requirements.IntendedSchemaAcceptsEveryAnswer |
| frontend/src/pages/ManageTestCases.jsx:89 | after a successful save the form is reset to an object without `preconditions`, and the next submit calls `form.preconditions.split` (line 79) on `undefined` | save one case, type a new title and submit again without touching the preconditions box: the submit throws and nothing is sent | the reset clears every field, preconditions included | not executed | ManageTestCasesPage.ResetAsWritten, ManageTestCasesPage.NextSubmitFailsAsWritten | ManageTestCasesPage.Reset, ManageTestCasesPage.NextSubmitSendsAfterReset |
| backend/app/auth.py:55 | register builds the user from the address and the password hash only, while `users.name` and `users.role_id` are NOT NULL without a default (backend/app/models.py:137, 144-148) | any registration with a fresh address: the commit raises IntegrityError, the server answers 500 and nothing is stored | the user is stored with the body's name and profile fields and its role, or the default tester role when none is given | not executed | Auth.RegisterAsWritten, Auth.RegisterNeverStoresAsWritten | Auth.Register, Auth.ValidatedBodyMeetsNotNull |
| backend/app/roles.py:16 | `require_admin` reads `user.role`, a lazy relationship (backend/app/models.py:163) of a user read by a plain select, inside an async session, so the load raises instead of querying; it runs first in all four roles handlers | any roles request from a stored user, who always has a role id: 500, and nothing is read or written | the caller's role row is read explicitly, as backend/app/project_access.py:77 does, and a flagged role passes | not executed | Roles.RequireAdminAsWritten, Roles.RoleAdminRefusedAsWritten | Roles.IsRoleAdmin, Roles.ListRoles |
| backend/app/project_sharing.py:13 | `ensure_owner_or_admin` reads the lazy `user.role` even when the caller owns the project | the owner, with the role id every stored user has, adds, lists or removes a member: 500 after the project lookup | the owner passes without the role, and an "admin" passes by a role read explicitly | not executed | ProjectSharing.OwnerOrAdminAsWritten, ProjectSharing.OwnerRefusedAsWritten | ProjectSharing.OwnerOrAdmin, ProjectSharing.AddMemberAcceptedIff |
| backend/app/permissions.py:45 | `getattr(user, "role", None)` reads the lazy relationship; the default covers only a missing attribute, not the failed load | a member or owner with a role id who passes the view check: 500 | the owner or a member whose role is named "admin" is granted | not executed | Permissions.EnsureProjectAdminAsWritten, Permissions.ProjectAdminRefusedAsWritten | Permissions.EnsureProjectAdmin, Permissions.AdminGrantedIff |
| backend/app/requirement.py:130 | after a failed test-case commit, the rollback at line 125 expires every row of the session, and `req.id` then needs a load the async session cannot run there | a requirement whose test cases include a title the project already has: the requirement stays stored, no test case is added, and the answer is 500 | the answer is the stored requirement with its test cases as they were | not executed | Requirements.CreateAnswerAsWritten, Requirements.ClashAnswers500AsWritten | Requirements.CreateRequirement, Requirements.ClashRollsBackAll |
| backend/app/test_cases.py:81 | the handlers read body fields their schemas do not declare: `payload.requirement_id` of `TestCaseCreateIn` (backend/app/schemas.py:285-291), and `payload.title` and the other requirement columns of `RequirementCreateIn` and `RequirementUpdateIn` (backend/app/requirement.py:62, 188) | creating a test case, or creating or updating a requirement, with edit access: AttributeError, answered 500 | request schemas that declare the fields the handlers store | not executed | Schemas.ReadField, Schemas.UndeclaredFieldsFailAsWritten | TestCases.CreateTestCase, TestCases.NewRow, Requirements.NewRequirement |
