/** Test cases: their steps are stored as text (a JSON array, or free text
    whose lines are the items), and so are preconditions, which the
    handlers never set; creation, listing,
    reading, update and deletion are guarded by project access. */
module TestCases {
  import opened Common
  import opened Models
  import opened Json
  import Permissions
  import Sorting

  const NotFound: string := "Test case not found"

  // ---------------------------------------------------------------------
  // The stored text of a list column
  // ---------------------------------------------------------------------

  /** A list field as a request gives it: a list whose items may be null,
      or a plain string. */
  datatype ListIn = Items(items: seq<Option<string>>) | Text(text: string)

  /** Python truthiness of the field. */
  predicate Filled(x: Option<ListIn>) {
    match x
    case None => false
    case Some(Items(items)) => items != []
    case Some(Text(t)) => t != ""
  }

  /** The present items, in order. */
  function Somes(xs: seq<Option<string>>): (r: seq<string>)
    ensures |r| <= |xs|
    decreases |xs|
  {
    if |xs| == 0 then []
    else
      var front := Somes(xs[..|xs| - 1]);
      match xs[|xs| - 1]
      case None => front
      case Some(x) => front + [x]
  }

  /** The column text written for a request field: nothing for a falsy
      field, the JSON array of the present items of a list, a string as
      given. */
  function Encode(x: Option<ListIn>): (r: Option<string>)
    ensures !Filled(x) <==> r.None?
    ensures Filled(x) && x.value.Text? ==> r == Some(x.value.text)
  {
    if !Filled(x) then None
    else match x.value
      case Items(items) => Some(Dumps(Somes(items)))
      case Text(t) => Some(t)
  }

  /** The list the response shows for a column: none for an empty column;
      the strings of the non-null items when the text is a JSON array;
      otherwise the non-empty lines. */
  function Decode(text: Option<string>, loads: string -> Option<Json>, repr: Json -> string): (r: Option<seq<string>>)
    ensures !Given(text) <==> r.None?
  {
    if !Given(text) then None
    else match loads(text.value)
      case Some(JArr(items)) => Some(StrsOf(items, repr))
      case _ => Some(NonEmptyOnly(Split(text.value, '\n')))
  }

  /** A non-empty list reads back as its present items; one whose items are
      all null reads back as the empty list, not as no list. */
  lemma ListRoundTrip(items: seq<Option<string>>, loads: string -> Option<Json>, repr: Json -> string)
    requires ReadsDumps(loads) && items != []
    ensures Decode(Encode(Some(Items(items))), loads, repr) == Some(Somes(items))
  {
    var xs := Somes(items);
    assert loads(Dumps(xs)) == Some(StrArray(xs));
    StrsOfStrArray(xs, repr);
  }

  /** An empty list is stored as no text and reads back as no list. */
  lemma EmptyListIsNoList(loads: string -> Option<Json>, repr: Json -> string)
    ensures Encode(Some(Items([]))) == None
    ensures Decode(Encode(Some(Items([]))), loads, repr) == None
  {
  }

  /** Free text that is not a JSON array reads back as its non-empty lines;
      lines joined with "\n" that are all non-empty and newline-free come
      back unchanged. */
  lemma {:induction false} LinesRoundTrip(lines: seq<string>, loads: string -> Option<Json>, repr: Json -> string)
    requires |lines| >= 1
    requires forall i :: 0 <= i < |lines| ==> lines[i] != "" && '\n' !in lines[i]
    requires var t := Join(lines, "\n"); !(loads(t).Some? && loads(t).value.JArr?)
    ensures Decode(Encode(Some(Text(Join(lines, "\n")))), loads, repr) == Some(lines)
  {
    var t := Join(lines, "\n");
    SplitJoin(lines, '\n');
    NonEmptyOnlyOfNonEmpty(lines);
    assert t != "" by {
      if |lines| == 1 { assert t == lines[0]; }
      else { assert t == lines[0] + "\n" + Join(lines[1..], "\n"); assert |t| > 0; }
    }
  }

  // ---------------------------------------------------------------------
  // Handlers
  // ---------------------------------------------------------------------

  /** The response; the preconditions are computed by the handler but the
      response model has no field for them. */
  datatype TestCaseOut = TestCaseOut(
    id: int, projectId: int, title: string, description: Option<string>, steps: Option<seq<string>>,
    expectedResult: Option<string>, priority: Option<string>, status: Option<string>, createdAt: int)

  function ToOut(t: TestCase, loads: string -> Option<Json>, repr: Json -> string): (r: TestCaseOut)
    ensures r.id == t.id && r.projectId == t.projectId && r.title == t.title
    ensures r.steps == Decode(t.steps, loads, repr)
  {
    TestCaseOut(t.id, t.projectId, t.title, t.description, Decode(t.steps, loads, repr),
                t.expectedResult, t.priority, t.status, t.createdAt)
  }

  /** The fields the handlers read from the request.  The request schema
      declares no preconditions, so a `preconditions` key in the body is
      dropped and the handlers' `getattr(payload, "preconditions", None)`
      always finds nothing. */
  datatype TestCaseIn = TestCaseIn(
    projectId: int, requirementId: Option<int>, title: string, description: Option<string>,
    steps: Option<ListIn>, expectedResult: Option<string>)

  /** Another test case of the same project has the title. */
  predicate TitleTaken(tcs: map<int, TestCase>, projectId: int, title: string, except: int) {
    exists k :: k in tcs && k != except && tcs[k].projectId == projectId && tcs[k].title == title
  }

  lemma StoreKeepsTestCasesValid(tcs: map<int, TestCase>, t: TestCase)
    requires TestCasesValid(tcs) && !TitleTaken(tcs, t.projectId, t.title, t.id)
    ensures TestCasesValid(tcs[t.id := t])
  {
    var m := tcs[t.id := t];
    forall a, b | a in m && b in m && m[a].projectId == m[b].projectId && m[a].title == m[b].title
      ensures a == b
    {
      if a != t.id && b != t.id {
        assert m[a] == tcs[a] && m[b] == tcs[b];
      }
    }
  }

  /** The row the create handler inserts. */
  function NewRow(tcs: map<int, TestCase>, payload: TestCaseIn, now: int): (t: TestCase)
    ensures t.id !in tcs && t.projectId == payload.projectId && t.title == payload.title
    ensures t.requirementId == payload.requirementId && t.description == payload.description
    ensures t.steps == Encode(payload.steps) && t.preconditions.None?
  {
    TestCase(NewId(tcs.Keys), payload.projectId, payload.requirementId, payload.title, payload.description,
             Encode(payload.steps), None, payload.expectedResult, None, None, now)
  }

  /** Edit access first.  An insert that clashes on (project, title) is
      rolled back and the existing row is answered instead. */
  method CreateTestCase(db: Database, payload: TestCaseIn, caller: User, now: int,
                        loads: string -> Option<Json>, repr: Json -> string) returns (r: Result<TestCaseOut>)
    requires TestCasesValid(db.testCases)
    modifies db`testCases
    ensures TestCasesValid(db.testCases)
    ensures var g := Permissions.EnsureProjectAccess(db.projects, db.projectMembers, payload.projectId, caller.id, false);
            g.Err? ==> r == Err(g.status, g.detail) && db.testCases == old(db.testCases)
    ensures r.Ok? && TitleTaken(old(db.testCases), payload.projectId, payload.title, NewId(old(db.testCases).Keys)) ==>
      && db.testCases == old(db.testCases)
      && exists k :: k in db.testCases && db.testCases[k].projectId == payload.projectId
                     && db.testCases[k].title == payload.title && r.value == ToOut(db.testCases[k], loads, repr)
    ensures r.Ok? && !TitleTaken(old(db.testCases), payload.projectId, payload.title, NewId(old(db.testCases).Keys)) ==>
      var t := NewRow(old(db.testCases), payload, now);
      r.value == ToOut(t, loads, repr) && db.testCases == old(db.testCases)[t.id := t]
    ensures Permissions.EnsureProjectAccess(db.projects, db.projectMembers, payload.projectId, caller.id, false).Ok? ==> r.Ok?
  {
    var g := Permissions.EnsureProjectAccess(db.projects, db.projectMembers, payload.projectId, caller.id, false);
    if g.Err? {
      return Err(g.status, g.detail);
    }
    var t := NewRow(db.testCases, payload, now);
    var existing := FirstKeyWhere(db.testCases, (x: TestCase) => x.projectId == payload.projectId && x.title == payload.title);
    if existing.Some? {
      return Ok(ToOut(db.testCases[existing.value], loads, repr));
    }
    StoreKeepsTestCasesValid(db.testCases, t);
    db.testCases := db.testCases[t.id := t];
    r := Ok(ToOut(t, loads, repr));
  }

  /** `max(1, min(limit, 200))`, the page size of both the test case and
      the requirement listings. */
  function ClampLimit(limit: int): (r: nat)
    ensures 1 <= r <= 200
    ensures 1 <= limit <= 200 ==> r == limit
    ensures limit < 1 ==> r == 1
    ensures 200 < limit ==> r == 200
  {
    var upper := if limit < 200 then limit else 200;
    if 1 < upper then upper else 1
  }

  /** The ids listed: the project's test cases, largest first, at most
      `n` of them. */
  function ListedKeys(tcs: map<int, TestCase>, projectId: int, n: nat): (ks: seq<int>)
    ensures |ks| <= n
    ensures forall i :: 0 <= i < |ks| ==> ks[i] in tcs && tcs[ks[i]].projectId == projectId
    ensures forall i, j :: 0 <= i < j < |ks| ==> ks[i] > ks[j]
  {
    Sorting.Largest(TestCasesOf(tcs, projectId), n)
  }

  /** The listing keeps the newest test cases: a test case left out is
      older (smaller id) than every one kept, and then `n` are kept. */
  lemma {:induction false} ListedKeysNewest(tcs: map<int, TestCase>, projectId: int, n: nat, k: int)
    requires k in tcs && tcs[k].projectId == projectId && k !in ListedKeys(tcs, projectId, n)
    ensures |ListedKeys(tcs, projectId, n)| == n
    ensures forall i :: 0 <= i < |ListedKeys(tcs, projectId, n)| ==> ListedKeys(tcs, projectId, n)[i] > k
  {
    Sorting.LargestKeepsNewest(TestCasesOf(tcs, projectId), n, k);
  }

  /** View access, then at most `ClampLimit(limit)` of the project's test
      cases, newest (largest id) first. */
  function ListTestCases(projects: map<int, Project>, members: map<(int, int), ProjectMember>,
                         tcs: map<int, TestCase>, projectId: int, limit: int, caller: User,
                         loads: string -> Option<Json>, repr: Json -> string): (r: Result<seq<TestCaseOut>>)
    requires TestCasesKeyed(tcs)
    ensures var g := Permissions.EnsureProjectAccess(projects, members, projectId, caller.id, true);
            (g.Err? <==> r.Err?) && (g.Err? ==> r == Err(g.status, g.detail))
    ensures r.Ok? ==>
      var rows := r.value;
      && |rows| <= ClampLimit(limit)
      && (forall i :: 0 <= i < |rows| ==> rows[i].id in tcs && rows[i] == ToOut(tcs[rows[i].id], loads, repr)
                                          && rows[i].projectId == projectId)
      && (forall i, j :: 0 <= i < j < |rows| ==> rows[i].id > rows[j].id)
  {
    var g := Permissions.EnsureProjectAccess(projects, members, projectId, caller.id, true);
    if g.Err? then Err(g.status, g.detail)
    else
      Ok(OutsOf(tcs, ListedKeys(tcs, projectId, ClampLimit(limit)), loads, repr))
  }

  /** The test cases with keys `ks`, in that order. */
  function OutsOf(tcs: map<int, TestCase>, ks: seq<int>, loads: string -> Option<Json>, repr: Json -> string)
    : (rows: seq<TestCaseOut>)
    requires TestCasesKeyed(tcs) && forall i :: 0 <= i < |ks| ==> ks[i] in tcs
    ensures |rows| == |ks|
    ensures forall i :: 0 <= i < |ks| ==> rows[i] == ToOut(tcs[ks[i]], loads, repr) && rows[i].id == ks[i]
  {
    seq(|ks|, i requires 0 <= i < |ks| => ToOut(tcs[ks[i]], loads, repr))
  }

  /** 404 for a missing test case before the access check on its project. */
  function Guard(projects: map<int, Project>, members: map<(int, int), ProjectMember>,
                 tcs: map<int, TestCase>, id: int, caller: User, allowView: bool): (r: Result<TestCase>)
    ensures id !in tcs <==> r == Err(404, NotFound)
    ensures id in tcs ==>
      var g := Permissions.EnsureProjectAccess(projects, members, tcs[id].projectId, caller.id, allowView);
      (g.Err? ==> r == Err(g.status, g.detail)) && (g.Ok? ==> r == Ok(tcs[id]))
  {
    if id !in tcs then Err(404, NotFound)
    else
      var g := Permissions.EnsureProjectAccess(projects, members, tcs[id].projectId, caller.id, allowView);
      if g.Err? then Err(g.status, g.detail) else Ok(tcs[id])
  }

  function GetTestCase(projects: map<int, Project>, members: map<(int, int), ProjectMember>,
                       tcs: map<int, TestCase>, id: int, caller: User,
                       loads: string -> Option<Json>, repr: Json -> string): (r: Result<TestCaseOut>)
    ensures id !in tcs <==> r == Err(404, NotFound)
    ensures r.Ok? <==> Guard(projects, members, tcs, id, caller, true).Ok?
    ensures r.Ok? ==> r.value == ToOut(tcs[id], loads, repr)
  {
    var g := Guard(projects, members, tcs, id, caller, true);
    if g.Err? then Err(g.status, g.detail) else Ok(ToOut(g.value, loads, repr))
  }

  /** The row after an update: title, description and expected result are
      always overwritten; steps only by a truthy field; the preconditions
      are kept. */
  function Updated(t: TestCase, payload: TestCaseIn): (u: TestCase)
    ensures u.id == t.id && u.projectId == t.projectId && u.title == payload.title
    ensures u.description == payload.description && u.expectedResult == payload.expectedResult
    ensures u.steps == (if Filled(payload.steps) then Encode(payload.steps) else t.steps)
    ensures u.preconditions == t.preconditions
    ensures u.requirementId == t.requirementId && u.createdAt == t.createdAt
  {
    var u := t.(title := payload.title, description := payload.description);
    var u := if Filled(payload.steps) then u.(steps := Encode(payload.steps)) else u;
    u.(expectedResult := payload.expectedResult)
  }

  /** Edit access on the row's project; the payload's project id is not
      used.  A new title that another test case of the project has fails
      the commit (500). */
  method UpdateTestCase(db: Database, id: int, payload: TestCaseIn, caller: User,
                        loads: string -> Option<Json>, repr: Json -> string) returns (r: Result<TestCaseOut>)
    requires TestCasesValid(db.testCases)
    modifies db`testCases
    ensures TestCasesValid(db.testCases)
    ensures var g := Guard(db.projects, db.projectMembers, old(db.testCases), id, caller, false);
            g.Err? ==> r == Err(g.status, g.detail)
    ensures r.Err? ==> db.testCases == old(db.testCases)
    ensures r.Ok? || r == Err(500, IntegrityErrorDetail)
            <==> Guard(db.projects, db.projectMembers, old(db.testCases), id, caller, false).Ok?
    ensures Guard(db.projects, db.projectMembers, old(db.testCases), id, caller, false).Ok? ==>
      var t := old(db.testCases)[id];
      (r.Err? <==> TitleTaken(old(db.testCases), t.projectId, payload.title, id))
      && (r.Ok? ==> r.value == ToOut(Updated(t, payload), loads, repr)
                    && db.testCases == old(db.testCases)[id := Updated(t, payload)])
  {
    var g := Guard(db.projects, db.projectMembers, db.testCases, id, caller, false);
    if g.Err? {
      return Err(g.status, g.detail);
    }
    var t := Updated(g.value, payload);
    if TitleTaken(db.testCases, t.projectId, t.title, id) {
      return Err(500, IntegrityErrorDetail);
    }
    StoreKeepsTestCasesValid(db.testCases, t);
    db.testCases := db.testCases[id := t];
    r := Ok(ToOut(t, loads, repr));
  }

  datatype TestCaseDeleted = TestCaseDeleted(status: string, id: int)

  method DeleteTestCase(db: Database, id: int, caller: User) returns (r: Result<TestCaseDeleted>)
    requires TestCasesValid(db.testCases)
    modifies db`testCases
    ensures TestCasesValid(db.testCases)
    ensures var g := Guard(db.projects, db.projectMembers, old(db.testCases), id, caller, false);
            && (g.Err? ==> r == Err(g.status, g.detail) && db.testCases == old(db.testCases))
            && (g.Ok? ==> r == Ok(TestCaseDeleted("deleted", id)) && db.testCases == old(db.testCases) - {id})
  {
    var g := Guard(db.projects, db.projectMembers, db.testCases, id, caller, false);
    if g.Err? {
      return Err(g.status, g.detail);
    }
    db.testCases := db.testCases - {id};
    r := Ok(TestCaseDeleted("deleted", id));
  }

  /** Viewers may read but not change: a member with level "viewer" passes
      the read guard and fails the write guard with 403. */
  lemma ViewerReadsButCannotWrite(projects: map<int, Project>, members: map<(int, int), ProjectMember>,
                                  tcs: map<int, TestCase>, id: int, caller: User)
    requires id in tcs && tcs[id].projectId in projects
    requires projects[tcs[id].projectId].ownerUserId != caller.id
    requires (tcs[id].projectId, caller.id) in members && members[(tcs[id].projectId, caller.id)].accessLevel == "viewer"
    ensures Guard(projects, members, tcs, id, caller, true).Ok?
    ensures Guard(projects, members, tcs, id, caller, false) == Err(403, "Not enough permissions")
  {
  }
}
