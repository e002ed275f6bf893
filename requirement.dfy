/** Requirements: created together with optional test cases given in the
    request, read with the test cases linked to them, listed, updated and
    deleted under project access. */
module Requirements {
  import opened Common
  import opened Models
  import opened Json
  import Permissions
  import Sorting
  import TestCases

  const NotFound: string := "Requirement not found"
  const DefaultTitle: string := "Auto-generated test case"
  /** What an exception other than a database error becomes. */
  const InternalError: string := "Internal Server Error"

  // ---------------------------------------------------------------------
  // Responses
  // ---------------------------------------------------------------------

  /** This module's reading of a test case: the steps are the non-empty
      lines of the stored text (no JSON decoding). */
  function TestCaseToOut(t: TestCase): (r: TestCases.TestCaseOut)
    ensures r.id == t.id && r.projectId == t.projectId && r.title == t.title
    ensures !Given(t.steps) <==> r.steps.None?
    ensures Given(t.steps) ==> r.steps == Some(NonEmptyOnly(Split(t.steps.value, '\n')))
  {
    var steps := if Given(t.steps) then Some(NonEmptyOnly(Split(t.steps.value, '\n'))) else None;
    TestCases.TestCaseOut(t.id, t.projectId, t.title, t.description, steps, t.expectedResult, t.priority, t.status, t.createdAt)
  }

  datatype RequirementOut = RequirementOut(
    id: int, projectId: int, title: string, description: string, acceptanceCriteria: Option<string>,
    source: string, externalId: Option<string>, testCases: seq<TestCases.TestCaseOut>, createdAt: int)

  function ToOut(r: Requirement, tcs: seq<TestCase>): (o: RequirementOut)
    ensures o.id == r.id && o.projectId == r.projectId && |o.testCases| == |tcs|
    ensures o.title == r.title && o.description == r.description && o.acceptanceCriteria == r.acceptanceCriteria
    ensures o.source == r.source && o.externalId == r.externalId && o.createdAt == r.createdAt
    ensures forall i :: 0 <= i < |tcs| ==> o.testCases[i] == TestCaseToOut(tcs[i])
  {
    RequirementOut(r.id, r.projectId, r.title, r.description, r.acceptanceCriteria, r.source, r.externalId,
                   seq(|tcs|, i requires 0 <= i < |tcs| => TestCaseToOut(tcs[i])), r.createdAt)
  }

  // ---------------------------------------------------------------------
  // Validating the answer against the response schema
  // ---------------------------------------------------------------------

  /** The fields the response schema `RequirementOut` declares without a
      default. */
  const SchemaRequired: set<string> := {"id", "project_id", "requirement_text", "predicted_category", "confidence", "created_at"}

  /** The fields a schema describing a requirement row would require. */
  const IntendedRequired: set<string> := {"id", "project_id", "title", "description", "source", "created_at"}

  /** The keyword arguments `_req_to_out` passes to the schema. */
  const Passed: set<string> := {"id", "project_id", "title", "description", "acceptance_criteria", "source",
                                "external_id", "test_cases", "created_at"}

  /** Building a schema object from keyword arguments: a required field
      that is not passed is a validation error, which the server answers
      with 500; extra arguments are ignored. */
  function Construct(required: set<string>, passed: set<string>, out: RequirementOut): (r: Result<RequirementOut>)
    ensures r.Ok? <==> required <= passed
    ensures r.Ok? ==> r.value == out
    ensures r.Err? ==> r == Err(500, "Internal Server Error")
  {
    if required <= passed then Ok(out) else Err(500, "Internal Server Error")
  }

  /** `_req_to_out` as written: the schema in force. */
  function ToOutAsWritten(r: Requirement, tcs: seq<TestCase>): (o: Result<RequirementOut>)
    ensures o.Ok? ==> o.value == ToOut(r, tcs)
    ensures o.Err? ==> o == Err(500, InternalError)
  {
    Construct(SchemaRequired, Passed, ToOut(r, tcs))
  }

  /** As written, every requirement answer fails validation: the schema
      requires `requirement_text`, which is never passed. */
  lemma EveryAnswerFailsAsWritten(r: Requirement, tcs: seq<TestCase>)
    ensures ToOutAsWritten(r, tcs) == Err(500, "Internal Server Error")
  {
    assert "requirement_text" in SchemaRequired && "requirement_text" !in Passed;
  }

  /** With a schema that describes the row, every answer validates and is
      the record `ToOut` builds. */
  lemma IntendedSchemaAcceptsEveryAnswer(r: Requirement, tcs: seq<TestCase>)
    ensures Construct(IntendedRequired, Passed, ToOut(r, tcs)) == Ok(ToOut(r, tcs))
  {
    assert IntendedRequired <= Passed;
  }

  function LinkedTo(tcs: map<int, TestCase>, reqId: int): (r: set<int>)
    ensures forall k :: k in r <==> k in tcs && tcs[k].requirementId == Some(reqId)
  {
    set k | k in tcs && tcs[k].requirementId == Some(reqId)
  }

  /** The test cases whose `requirement_id` is `reqId`, largest id first. */
  function Linked(tcs: map<int, TestCase>, reqId: int): (r: seq<TestCase>)
    ensures |r| == |LinkedTo(tcs, reqId)|
    ensures forall i :: 0 <= i < |r| ==> r[i].requirementId == Some(reqId)
    ensures forall i :: 0 <= i < |r| ==> r[i] in tcs.Values
    ensures forall k :: k in LinkedTo(tcs, reqId) ==> tcs[k] in r
    ensures TestCasesKeyed(tcs) ==> forall i, j :: 0 <= i < j < |r| ==> r[i].id > r[j].id
  {
    var ks := Sorting.Descending(LinkedTo(tcs, reqId));
    LinkedRows(tcs, LinkedTo(tcs, reqId), ks);
    RowsAt(tcs, ks)
  }

  /** The rows at the keys of `s`, largest key first, are the stored rows
      of `s` in decreasing id order. */
  lemma LinkedRows(tcs: map<int, TestCase>, s: set<int>, ks: seq<int>)
    requires s <= tcs.Keys
    requires forall x :: x in ks <==> x in s
    requires forall i :: 0 <= i < |ks| ==> ks[i] in tcs
    requires Sorting.StrictlyDecreasing(ks)
    ensures forall i :: 0 <= i < |ks| ==> RowsAt(tcs, ks)[i] in tcs.Values
    ensures forall k :: k in s ==> tcs[k] in RowsAt(tcs, ks)
    ensures TestCasesKeyed(tcs) ==> forall i, j :: 0 <= i < j < |ks| ==> RowsAt(tcs, ks)[i].id > RowsAt(tcs, ks)[j].id
  {
    var rows := RowsAt(tcs, ks);
    forall k | k in s ensures tcs[k] in rows {
      assert k in ks;
      var i :| 0 <= i < |ks| && ks[i] == k;
      assert rows[i] == tcs[k];
    }
    forall i | 0 <= i < |ks| ensures rows[i] in tcs.Values {
      var k := ks[i];
      assert k in tcs && rows[i] == tcs[k];
    }
    if TestCasesKeyed(tcs) {
      forall i, j | 0 <= i < j < |ks| ensures rows[i].id > rows[j].id {
        assert rows[i].id == ks[i] && rows[j].id == ks[j];
      }
    }
  }

  // ---------------------------------------------------------------------
  // The test cases of a creation request
  // ---------------------------------------------------------------------

  /** A test case to insert, as the loop derives it from one item. */
  datatype Draft = Draft(title: string, description: Option<string>, steps: Option<string>, expected: Option<string>)

  /** What the loop does with one item: skips it, derives a draft, or
      raises (a title that is not a string has no `.strip()`). */
  datatype Step = Skip | Make(draft: Draft) | Raise

  /** A text column's value: a string as it is, anything else as no value. */
  function TextOf(j: Json): (r: Option<string>)
    ensures j.JStr? <==> r.Some?
  {
    if j.JStr? then Some(j.s) else None
  }

  /** `s[:255]`. */
  function Cut255(s: string): (r: string)
    ensures |r| <= 255 && |r| <= |s| && r == s[..|r|]
    ensures |s| <= 255 ==> r == s
  {
    if |s| <= 255 then s else s[..255]
  }

  /** The steps text: a list joined with "\n" skipping nulls, a string
      verbatim, nothing otherwise. */
  function StepsText(j: Json, repr: Json -> string): (r: Option<string>)
    ensures j.JStr? ==> r == Some(j.s)
    ensures j.JArr? ==> r == Some(Join(StrsOf(j.items, repr), "\n"))
    ensures !j.JStr? && !j.JArr? ==> r.None?
  {
    match j
    case JArr(items) => Some(Join(StrsOf(items, repr), "\n"))
    case JStr(s) => Some(s)
    case _ => None
  }

  /** One iteration of the test-case loop. */
  function Normalise(item: Json, loads: string -> Option<Json>, repr: Json -> string): (r: Step)
  {
    var tc := if item.JStr? then (match loads(item.s) case Some(j) => j case None => JObj([("title", item)])) else item;
    if !tc.JObj? then Skip
    else
      var m := tc.members;
      var title := Or(Or(Get(m, "title"), Get(m, "name")), JStr(DefaultTitle));
      if !title.JStr? then Raise
      else
        Make(Draft(Cut255(PyStrip(title.s)),
                   TextOf(Or(Get(m, "description"), Get(m, "desc"))),
                   StepsText(Or(Get(m, "steps"), Get(m, "step")), repr),
                   TextOf(Or(Get(m, "expected_result"), Get(m, "expected")))))
  }

  /** A string that is not JSON becomes a test case titled by the string,
      stripped and cut to 255 characters. */
  lemma PlainStringIsTitle(s: string, loads: string -> Option<Json>, repr: Json -> string)
    requires loads(s).None? && PyStrip(s) != ""
    ensures Normalise(JStr(s), loads, repr) == Make(Draft(Cut255(PyStrip(s)), None, None, None))
  {
    var m := [("title", JStr(s))];
    assert Get(m, "name") == JNull && Get(m, "description") == JNull && Get(m, "desc") == JNull;
    assert Get(m, "steps") == JNull && Get(m, "step") == JNull;
    assert Get(m, "expected_result") == JNull && Get(m, "expected") == JNull;
    assert IsTruthy(JStr(s)) by { TrimEmptyIff(s, PySpace); }
  }

  /** An object with neither a title nor a name gets the default title. */
  lemma UntitledGetsDefault(m: seq<(string, Json)>, loads: string -> Option<Json>, repr: Json -> string)
    requires !IsTruthy(Get(m, "title")) && !IsTruthy(Get(m, "name"))
    ensures Normalise(JObj(m), loads, repr).Make?
    ensures Normalise(JObj(m), loads, repr).draft.title == DefaultTitle
  {
    TrimOfTrimmed(DefaultTitle, PySpace);
    assert PyStrip(DefaultTitle) == DefaultTitle;
  }

  /** Items that are neither objects nor strings are skipped. */
  lemma NonObjectSkipped(item: Json, loads: string -> Option<Json>, repr: Json -> string)
    requires !item.JObj? && !item.JStr?
    ensures Normalise(item, loads, repr) == Skip
  {
  }

  /** The loop's state after one more item. */
  function Extend(acc: Option<seq<Draft>>, st: Step): (r: Option<seq<Draft>>)
    ensures r.Some? <==> acc.Some? && !st.Raise?
  {
    match acc
    case None => None
    case Some(ds) =>
      match st
      case Skip => Some(ds)
      case Make(d) => Some(ds + [d])
      case Raise => None
  }

  /** The drafts of `items` in order, or `None` when one of them raises. */
  function Collected(items: seq<Json>, loads: string -> Option<Json>, repr: Json -> string): (r: Option<seq<Draft>>)
    decreases |items|
  {
    if |items| == 0 then Some([])
    else Extend(Collected(items[..|items| - 1], loads, repr), Normalise(items[|items| - 1], loads, repr))
  }

  /** Once an item raises, the loop never completes. */
  lemma {:induction false} RaisePersists(items: seq<Json>, n: nat, loads: string -> Option<Json>, repr: Json -> string)
    requires n <= |items| && Collected(items[..n], loads, repr).None?
    ensures Collected(items, loads, repr).None?
    decreases |items| - n
  {
    if n < |items| {
      assert items[..n + 1][..n] == items[..n];
      RaisePersists(items, n + 1, loads, repr);
    } else {
      assert items[..n] == items;
    }
  }

  /** The row the loop adds for draft `d`. */
  function Row(id: int, projectId: int, reqId: int, d: Draft, now: int): TestCase {
    TestCase(id, projectId, Some(reqId), d.title, d.description, d.steps, None, d.expected, None, None, now)
  }

  /** The rows of the drafts, numbered from `base`. */
  function RowsFor(ds: seq<Draft>, base: int, projectId: int, reqId: int, now: int): (r: seq<TestCase>)
    ensures |r| == |ds|
    ensures forall i :: 0 <= i < |ds| ==> r[i] == Row(base + i, projectId, reqId, ds[i], now)
  {
    seq(|ds|, i requires 0 <= i < |ds| => Row(base + i, projectId, reqId, ds[i], now))
  }

  /** The loop over the items: each item is normalised and its draft
      kept (the rows added to the session, numbered from `base`, follow
      the drafts); the first item that raises ends it. */
  method PendingRows(items: seq<Json>, base: int, projectId: int, reqId: int, now: int,
                     loads: string -> Option<Json>, repr: Json -> string) returns (rows: Option<seq<TestCase>>)
    ensures rows.None? <==> Collected(items, loads, repr).None?
    ensures rows.Some? ==> rows.value == RowsFor(Collected(items, loads, repr).value, base, projectId, reqId, now)
  {
    var ds: seq<Draft> := [];
    var i := 0;
    while i < |items|
      invariant 0 <= i <= |items|
      invariant Collected(items[..i], loads, repr) == Some(ds)
    {
      assert items[..i + 1][..i] == items[..i];
      var st := Normalise(items[i], loads, repr);
      assert Collected(items[..i + 1], loads, repr) == Extend(Some(ds), st);
      if st.Raise? {
        RaisePersists(items, i + 1, loads, repr);
        return None;
      }
      if st.Make? {
        ds := ds + [st.draft];
      }
      i := i + 1;
    }
    assert items[..i] == items;
    rows := Some(RowsFor(ds, base, projectId, reqId, now));
  }

  /** The commit of the rows fails: a title that another test case of the
      project has, or that two new rows share. */
  predicate BatchClashes(tcs: map<int, TestCase>, rows: seq<TestCase>) {
    || (exists i, k :: 0 <= i < |rows| && k in tcs && tcs[k].projectId == rows[i].projectId && tcs[k].title == rows[i].title)
    || (exists i, j :: 0 <= i < j < |rows| && rows[i].projectId == rows[j].projectId && rows[i].title == rows[j].title)
  }

  function AsMap(rows: seq<TestCase>): (m: map<int, TestCase>)
    requires forall i, j :: 0 <= i < j < |rows| ==> rows[i].id != rows[j].id
    ensures forall k :: k in m <==> exists i :: 0 <= i < |rows| && rows[i].id == k
    ensures forall i :: 0 <= i < |rows| ==> rows[i].id in m && m[rows[i].id] == rows[i]
  {
    map i | 0 <= i < |rows| :: rows[i].id := rows[i]
  }

  lemma BatchKeepsTestCasesValid(tcs: map<int, TestCase>, rows: seq<TestCase>, base: int)
    requires TestCasesValid(tcs) && !BatchClashes(tcs, rows)
    requires forall k :: k in tcs ==> k < base
    requires forall i :: 0 <= i < |rows| ==> rows[i].id == base + i
    ensures TestCasesValid(tcs + AsMap(rows))
  {
    var n := AsMap(rows);
    var m := tcs + n;
    forall k | k in m ensures m[k].id == k {
      if k in n {
        var i :| 0 <= i < |rows| && rows[i].id == k;
      }
    }
    forall a, b | a in m && b in m && a != b
      ensures !(m[a].projectId == m[b].projectId && m[a].title == m[b].title)
    {
      if a in n && b in n {
        var i :| 0 <= i < |rows| && rows[i].id == a;
        var j :| 0 <= j < |rows| && rows[j].id == b;
        if i < j {
          NoPairClash(tcs, rows, i, j);
        } else if j < i {
          NoPairClash(tcs, rows, j, i);
        }
      } else if a in n {
        var i :| 0 <= i < |rows| && rows[i].id == a;
        NoOldClash(tcs, rows, i, b);
      } else if b in n {
        var j :| 0 <= j < |rows| && rows[j].id == b;
        NoOldClash(tcs, rows, j, a);
      }
    }
  }

  /** The drafts' rows, numbered from `NewId`, keep the table's
      constraints when no title clashes. */
  lemma NewRowsKeepValid(tcs: map<int, TestCase>, ds: seq<Draft>, projectId: int, reqId: int, now: int)
    requires TestCasesValid(tcs)
    requires !BatchClashes(tcs, RowsFor(ds, NewId(tcs.Keys), projectId, reqId, now))
    ensures var rows := RowsFor(ds, NewId(tcs.Keys), projectId, reqId, now);
            (forall i, j :: 0 <= i < j < |rows| ==> rows[i].id != rows[j].id) && TestCasesValid(tcs + AsMap(rows))
  {
    var base := NewId(tcs.Keys);
    var rows := RowsFor(ds, base, projectId, reqId, now);
    assert forall i :: 0 <= i < |rows| ==> rows[i].id == base + i;
    BatchKeepsTestCasesValid(tcs, rows, base);
  }

  lemma NoPairClash(tcs: map<int, TestCase>, rows: seq<TestCase>, i: int, j: int)
    requires !BatchClashes(tcs, rows) && 0 <= i < j < |rows|
    ensures !(rows[i].projectId == rows[j].projectId && rows[i].title == rows[j].title)
  {
  }

  lemma NoOldClash(tcs: map<int, TestCase>, rows: seq<TestCase>, i: int, k: int)
    requires !BatchClashes(tcs, rows) && 0 <= i < |rows| && k in tcs
    ensures !(tcs[k].projectId == rows[i].projectId && tcs[k].title == rows[i].title)
  {
  }

  // ---------------------------------------------------------------------
  // Handlers
  // ---------------------------------------------------------------------

  /** The fields the handlers read from the request. */
  datatype RequirementIn = RequirementIn(
    projectId: int, title: string, description: string, acceptanceCriteria: Option<string>,
    source: Option<string>, externalId: Option<string>, testCases: Option<Json>)

  /** The requirement row the create handler commits. */
  function NewRequirement(reqs: map<int, Requirement>, payload: RequirementIn, now: int): (r: Requirement)
    ensures r.id !in reqs && r.projectId == payload.projectId && r.createdAt == now
    ensures r.title == payload.title && r.description == payload.description
    ensures r.acceptanceCriteria == payload.acceptanceCriteria && r.externalId == payload.externalId
    ensures r.source == if Given(payload.source) then payload.source.value else DefaultRequirementSource
  {
    Requirement(NewId(reqs.Keys), payload.projectId, payload.title, payload.description, payload.acceptanceCriteria,
                if Given(payload.source) then payload.source.value else DefaultRequirementSource,
                payload.externalId, now)
  }

  /** The value the loop iterates: a string is decoded first (undecodable
      text counts as no test cases). */
  function TestCasesPayload(x: Option<Json>, loads: string -> Option<Json>): Option<Json> {
    match x
    case Some(JStr(s)) => loads(s)
    case _ => x
  }

  /** The second transaction: `None` when the loop raises (the response
      is then 500), otherwise the test-case table afterwards — unchanged
      when there is nothing to insert or when the commit fails on a title
      and is rolled back. */
  function Committed(tcs: map<int, TestCase>, given: Option<Json>, projectId: int, reqId: int, now: int,
                     loads: string -> Option<Json>, repr: Json -> string): Option<map<int, TestCase>>
  {
    var payload := TestCasesPayload(given, loads);
    if payload.None? || !IsTruthy(payload.value) then Some(tcs)
    else
      var items := Iterate(payload.value);
      if items.None? then None
      else
        var ds := Collected(items.value, loads, repr);
        if ds.None? then None
        else
          var rows := RowsFor(ds.value, NewId(tcs.Keys), projectId, reqId, now);
          if BatchClashes(tcs, rows) then Some(tcs) else Some(tcs + AsMap(rows))
  }

  /** The test cases of the request, inserted in one transaction. */
  method AddTestCases(db: Database, given: Option<Json>, projectId: int, reqId: int, now: int,
                      loads: string -> Option<Json>, repr: Json -> string) returns (ok: bool)
    requires TestCasesValid(db.testCases)
    modifies db`testCases
    ensures TestCasesValid(db.testCases)
    ensures var c := Committed(old(db.testCases), given, projectId, reqId, now, loads, repr);
            (ok <==> c.Some?) && db.testCases == (if ok then c.value else old(db.testCases))
  {
    var tcs := TestCasesPayload(given, loads);
    if tcs.None? || !IsTruthy(tcs.value) {
      return true;
    }
    var items := Iterate(tcs.value);
    if items.None? {
      return false;
    }
    var base := NewId(db.testCases.Keys);
    var rows := PendingRows(items.value, base, projectId, reqId, now, loads, repr);
    if rows.None? {
      return false;
    }
    ghost var ds := Collected(items.value, loads, repr).value;
    if !BatchClashes(db.testCases, rows.value) {
      NewRowsKeepValid(db.testCases, ds, projectId, reqId, now);
      db.testCases := db.testCases + AsMap(rows.value);
    }
    ok := true;
  }

  /** The first transaction: the requirement row. */
  method InsertRequirement(db: Database, req: Requirement)
    requires RequirementsValid(db.requirements, db.projects)
    requires req.id !in db.requirements && req.projectId in db.projects
    modifies db`requirements
    ensures RequirementsValid(db.requirements, db.projects)
    ensures db.requirements == old(db.requirements)[req.id := req]
  {
    db.requirements := db.requirements[req.id := req];
  }

  /** Edit access; the requirement is committed first, then its test
      cases; the answer lists the test cases linked to it. */
  method CreateRequirement(db: Database, payload: RequirementIn, caller: User, now: int,
                           loads: string -> Option<Json>, repr: Json -> string) returns (r: Result<RequirementOut>)
    requires RequirementsValid(db.requirements, db.projects) && TestCasesValid(db.testCases)
    modifies db`requirements, db`testCases
    ensures RequirementsValid(db.requirements, db.projects) && TestCasesValid(db.testCases)
    ensures var g := Permissions.EnsureProjectAccess(db.projects, db.projectMembers, payload.projectId, caller.id, false);
            g.Err? ==> r == Err(g.status, g.detail) && db.requirements == old(db.requirements)
                       && db.testCases == old(db.testCases)
    ensures Permissions.EnsureProjectAccess(db.projects, db.projectMembers, payload.projectId, caller.id, false).Ok? ==>
      var req := NewRequirement(old(db.requirements), payload, now);
      var c := Committed(old(db.testCases), payload.testCases, payload.projectId, req.id, now, loads, repr);
      && db.requirements == old(db.requirements)[req.id := req]
      && (c.None? ==> r == Err(500, InternalError) && db.testCases == old(db.testCases))
      && (c.Some? ==> db.testCases == c.value && r == Ok(ToOut(req, Linked(c.value, req.id))))
  {
    var g := Permissions.EnsureProjectAccess(db.projects, db.projectMembers, payload.projectId, caller.id, false);
    if g.Err? {
      return Err(g.status, g.detail);
    }
    var req := NewRequirement(db.requirements, payload, now);
    InsertRequirement(db, req);
    var ok := AddTestCases(db, payload.testCases, payload.projectId, req.id, now, loads, repr);
    if !ok {
      return Err(500, InternalError);
    }
    r := Ok(ToOut(req, Linked(db.testCases, req.id)));
  }

  /** The second transaction keeps the table's constraints. */
  lemma CommittedKeepsValid(tcs: map<int, TestCase>, given: Option<Json>, projectId: int, reqId: int, now: int,
                            loads: string -> Option<Json>, repr: Json -> string)
    requires TestCasesValid(tcs)
    ensures var c := Committed(tcs, given, projectId, reqId, now, loads, repr);
            c.Some? ==> TestCasesValid(c.value)
  {
    var payload := TestCasesPayload(given, loads);
    if payload.Some? && IsTruthy(payload.value) && Iterate(payload.value).Some? {
      var ds := Collected(Iterate(payload.value).value, loads, repr);
      if ds.Some? && !BatchClashes(tcs, RowsFor(ds.value, NewId(tcs.Keys), projectId, reqId, now)) {
        NewRowsKeepValid(tcs, ds.value, projectId, reqId, now);
      }
    }
  }

  /** Existing test cases are never changed; every new one belongs to the
      project and is linked to the new requirement. */
  lemma CommittedOnlyAddsLinkedRows(tcs: map<int, TestCase>, given: Option<Json>, projectId: int, reqId: int, now: int,
                                    loads: string -> Option<Json>, repr: Json -> string)
    ensures var c := Committed(tcs, given, projectId, reqId, now, loads, repr);
            c.Some? ==>
              && (forall k :: k in tcs ==> k in c.value && c.value[k] == tcs[k])
              && (forall k :: k in c.value && k !in tcs ==>
                    c.value[k].projectId == projectId && k in LinkedTo(c.value, reqId))
  {
  }

  /** When the loop completes and no title clashes, draft `i` is stored as
      the test case numbered `NewId + i`, linked to the requirement. */
  lemma EveryDraftStored(tcs: map<int, TestCase>, given: Option<Json>, projectId: int, reqId: int, now: int,
                         loads: string -> Option<Json>, repr: Json -> string, items: seq<Json>, i: int)
    requires var payload := TestCasesPayload(given, loads);
             payload.Some? && IsTruthy(payload.value) && Iterate(payload.value) == Some(items)
    requires var ds := Collected(items, loads, repr);
             ds.Some? && 0 <= i < |ds.value|
             && !BatchClashes(tcs, RowsFor(ds.value, NewId(tcs.Keys), projectId, reqId, now))
    ensures var c := Committed(tcs, given, projectId, reqId, now, loads, repr);
            var d := Collected(items, loads, repr).value[i];
            var k := NewId(tcs.Keys) + i;
            c.Some? && k !in tcs && k in c.value && c.value[k] == Row(k, projectId, reqId, d, now)
  {
    var rows := RowsFor(Collected(items, loads, repr).value, NewId(tcs.Keys), projectId, reqId, now);
    assert rows[i].id == NewId(tcs.Keys) + i;
  }

  /** A title clash rolls back every test case of the request, and the
      requirement committed before stays. */
  lemma ClashRollsBackAll(tcs: map<int, TestCase>, given: Option<Json>, projectId: int, reqId: int, now: int,
                          loads: string -> Option<Json>, repr: Json -> string, items: seq<Json>)
    requires var payload := TestCasesPayload(given, loads);
             payload.Some? && IsTruthy(payload.value) && Iterate(payload.value) == Some(items)
    requires var ds := Collected(items, loads, repr);
             ds.Some? && BatchClashes(tcs, RowsFor(ds.value, NewId(tcs.Keys), projectId, reqId, now))
    ensures Committed(tcs, given, projectId, reqId, now, loads, repr) == Some(tcs)
  {
  }

  /** The second transaction reached its commit and was rolled back there
      because a title clashed. */
  predicate RolledBack(tcs: map<int, TestCase>, given: Option<Json>, projectId: int, reqId: int, now: int,
                       loads: string -> Option<Json>, repr: Json -> string)
  {
    var payload := TestCasesPayload(given, loads);
    payload.Some? && IsTruthy(payload.value) && Iterate(payload.value).Some?
    && var ds := Collected(Iterate(payload.value).value, loads, repr);
       ds.Some? && BatchClashes(tcs, RowsFor(ds.value, NewId(tcs.Keys), projectId, reqId, now))
  }

  /** The answer of `create_requirement` as written once the requirement
      is committed: the rollback expires `req` with the rest of the session,
      and reading `req.id` for the final query is a load the async session
      cannot run there.  (The response schema is left aside here; it is
      the subject of `ToOutAsWritten`.) */
  function CreateAnswerAsWritten(tcs: map<int, TestCase>, req: Requirement, given: Option<Json>, now: int,
                                 loads: string -> Option<Json>, repr: Json -> string): Result<RequirementOut>
  {
    var c := Committed(tcs, given, req.projectId, req.id, now, loads, repr);
    if c.None? then Err(500, InternalError)
    else if RolledBack(tcs, given, req.projectId, req.id, now, loads, repr) then Err(500, MissingGreenletDetail)
    else Ok(ToOut(req, Linked(c.value, req.id)))
  }

  /** As written, a clashing title answers 500 although the requirement
      stays stored and the test-case table is left as it was; with the
      row's id kept, the answer is the stored requirement. */
  lemma ClashAnswers500AsWritten(tcs: map<int, TestCase>, req: Requirement, given: Option<Json>, now: int,
                                 loads: string -> Option<Json>, repr: Json -> string)
    requires RolledBack(tcs, given, req.projectId, req.id, now, loads, repr)
    ensures Committed(tcs, given, req.projectId, req.id, now, loads, repr) == Some(tcs)
    ensures CreateAnswerAsWritten(tcs, req, given, now, loads, repr) == Err(500, MissingGreenletDetail)
  {
    var payload := TestCasesPayload(given, loads);
    ClashRollsBackAll(tcs, given, req.projectId, req.id, now, loads, repr, Iterate(payload.value).value);
  }

  /** An item that raises makes the whole request fail after the
      requirement is stored. */
  lemma RaiseFailsRequest(tcs: map<int, TestCase>, given: Option<Json>, projectId: int, reqId: int, now: int,
                          loads: string -> Option<Json>, repr: Json -> string, items: seq<Json>, n: nat)
    requires var payload := TestCasesPayload(given, loads);
             payload.Some? && IsTruthy(payload.value) && Iterate(payload.value) == Some(items)
    requires 0 <= n < |items| && Normalise(items[n], loads, repr) == Raise
    ensures Committed(tcs, given, projectId, reqId, now, loads, repr).None?
  {
    assert items[..n + 1][..n] == items[..n];
    RaisePersists(items, n + 1, loads, repr);
  }

  /** A requirement's steps, given as a list of non-empty lines without
      newlines, read back as that list. */
  lemma StepsListRoundTrip(lines: seq<string>, repr: Json -> string, t: TestCase)
    requires |lines| >= 1
    requires forall i :: 0 <= i < |lines| ==> lines[i] != "" && '\n' !in lines[i]
    requires t.steps == StepsText(StrArray(lines), repr)
    ensures TestCaseToOut(t).steps == Some(lines)
  {
    StrsOfStrArray(lines, repr);
    SplitJoin(lines, '\n');
    NonEmptyOnlyOfNonEmpty(lines);
    var s := Join(lines, "\n");
    assert s != "" by {
      if |lines| == 1 { assert s == lines[0]; }
      else { assert s == lines[0] + "\n" + Join(lines[1..], "\n"); assert |s| > 0; }
    }
  }

  /** 404 for a missing requirement before the access check. */
  function Guard(projects: map<int, Project>, members: map<(int, int), ProjectMember>,
                 reqs: map<int, Requirement>, id: int, caller: User, allowView: bool): (r: Result<Requirement>)
    ensures id !in reqs <==> r == Err(404, NotFound)
    ensures id in reqs ==>
      var g := Permissions.EnsureProjectAccess(projects, members, reqs[id].projectId, caller.id, allowView);
      (g.Err? ==> r == Err(g.status, g.detail)) && (g.Ok? ==> r == Ok(reqs[id]))
  {
    if id !in reqs then Err(404, NotFound)
    else
      var g := Permissions.EnsureProjectAccess(projects, members, reqs[id].projectId, caller.id, allowView);
      if g.Err? then Err(g.status, g.detail) else Ok(reqs[id])
  }

  function GetRequirement(projects: map<int, Project>, members: map<(int, int), ProjectMember>,
                          reqs: map<int, Requirement>, tcs: map<int, TestCase>, id: int, caller: User): (r: Result<RequirementOut>)
    ensures id !in reqs <==> r == Err(404, NotFound)
    ensures r.Ok? <==> Guard(projects, members, reqs, id, caller, true).Ok?
    ensures r.Ok? ==> r.value == ToOut(reqs[id], Linked(tcs, id))
  {
    var g := Guard(projects, members, reqs, id, caller, true);
    if g.Err? then Err(g.status, g.detail) else Ok(ToOut(g.value, Linked(tcs, id)))
  }

  function ListedKeys(reqs: map<int, Requirement>, projectId: int, n: nat): (ks: seq<int>)
    ensures |ks| <= n
    ensures forall i :: 0 <= i < |ks| ==> ks[i] in reqs && reqs[ks[i]].projectId == projectId
    ensures forall i, j :: 0 <= i < j < |ks| ==> ks[i] > ks[j]
  {
    Sorting.Largest(RequirementsOf(reqs, projectId), n)
  }

  /** The listing keeps the newest requirements: one left out has a
      smaller id than every one kept, and then `n` are kept. */
  lemma {:induction false} ListedKeysNewest(reqs: map<int, Requirement>, projectId: int, n: nat, k: int)
    requires k in reqs && reqs[k].projectId == projectId && k !in ListedKeys(reqs, projectId, n)
    ensures |ListedKeys(reqs, projectId, n)| == n
    ensures forall i :: 0 <= i < |ListedKeys(reqs, projectId, n)| ==> ListedKeys(reqs, projectId, n)[i] > k
  {
    Sorting.LargestKeepsNewest(RequirementsOf(reqs, projectId), n, k);
  }

  /** View access; at most `TestCases.ClampLimit(limit)` requirements, largest id
      first, each with an empty list of test cases. */
  function ListRequirements(projects: map<int, Project>, members: map<(int, int), ProjectMember>,
                            reqs: map<int, Requirement>, projectId: int, limit: int, caller: User): (r: Result<seq<RequirementOut>>)
    requires RequirementsKeyed(reqs)
    ensures var g := Permissions.EnsureProjectAccess(projects, members, projectId, caller.id, true);
            (g.Err? <==> r.Err?) && (g.Err? ==> r == Err(g.status, g.detail))
    ensures r.Ok? ==>
      var rows := r.value;
      && |rows| <= TestCases.ClampLimit(limit)
      && (forall i :: 0 <= i < |rows| ==> rows[i].id in reqs && rows[i] == ToOut(reqs[rows[i].id], [])
                                          && rows[i].projectId == projectId && rows[i].testCases == [])
      && (forall i, j :: 0 <= i < j < |rows| ==> rows[i].id > rows[j].id)
  {
    var g := Permissions.EnsureProjectAccess(projects, members, projectId, caller.id, true);
    if g.Err? then Err(g.status, g.detail)
    else
      Ok(OutsOf(reqs, ListedKeys(reqs, projectId, TestCases.ClampLimit(limit))))
  }

  /** The requirements with keys `ks`, in that order, without test cases. */
  function OutsOf(reqs: map<int, Requirement>, ks: seq<int>): (rows: seq<RequirementOut>)
    requires RequirementsKeyed(reqs) && forall i :: 0 <= i < |ks| ==> ks[i] in reqs
    ensures |rows| == |ks|
    ensures forall i :: 0 <= i < |ks| ==> rows[i] == ToOut(reqs[ks[i]], []) && rows[i].id == ks[i]
  {
    seq(|ks|, i requires 0 <= i < |ks| => ToOut(reqs[ks[i]], []))
  }

  /** The fields the update handler reads. */
  datatype RequirementUpdateIn = RequirementUpdateIn(
    title: string, description: string, acceptanceCriteria: Option<string>,
    source: Option<string>, externalId: Option<string>)

  /** Title, description and acceptance criteria are overwritten; source
      and external id only when given. */
  function Updated(req: Requirement, payload: RequirementUpdateIn): (u: Requirement)
    ensures u.id == req.id && u.projectId == req.projectId && u.createdAt == req.createdAt
    ensures u.title == payload.title && u.description == payload.description
    ensures u.acceptanceCriteria == payload.acceptanceCriteria
    ensures u.source == (if payload.source.Some? then payload.source.value else req.source)
    ensures u.externalId == (if payload.externalId.Some? then payload.externalId else req.externalId)
  {
    var u := req.(title := payload.title, description := payload.description,
                  acceptanceCriteria := payload.acceptanceCriteria);
    var u := if payload.source.Some? then u.(source := payload.source.value) else u;
    if payload.externalId.Some? then u.(externalId := payload.externalId) else u
  }

  method UpdateRequirement(db: Database, id: int, payload: RequirementUpdateIn, caller: User) returns (r: Result<RequirementOut>)
    requires RequirementsValid(db.requirements, db.projects)
    modifies db`requirements
    ensures RequirementsValid(db.requirements, db.projects)
    ensures var g := Guard(db.projects, db.projectMembers, old(db.requirements), id, caller, false);
            && (g.Err? ==> r == Err(g.status, g.detail) && db.requirements == old(db.requirements))
            && (g.Ok? ==> var u := Updated(g.value, payload);
                          r == Ok(ToOut(u, Linked(db.testCases, id))) && db.requirements == old(db.requirements)[id := u])
  {
    var g := Guard(db.projects, db.projectMembers, db.requirements, id, caller, false);
    if g.Err? {
      return Err(g.status, g.detail);
    }
    var u := Updated(g.value, payload);
    db.requirements := db.requirements[id := u];
    r := Ok(ToOut(u, Linked(db.testCases, id)));
  }

  datatype RequirementDeleted = RequirementDeleted(status: string, id: int)

  /** Removes the requirement only: no relationship cascades to test
      cases, which keep their `requirement_id`. */
  method DeleteRequirement(db: Database, id: int, caller: User) returns (r: Result<RequirementDeleted>)
    requires RequirementsValid(db.requirements, db.projects)
    modifies db`requirements
    ensures RequirementsValid(db.requirements, db.projects)
    ensures var g := Guard(db.projects, db.projectMembers, old(db.requirements), id, caller, false);
            && (g.Err? ==> r == Err(g.status, g.detail) && db.requirements == old(db.requirements))
            && (g.Ok? ==> r == Ok(RequirementDeleted("deleted", id)) && db.requirements == old(db.requirements) - {id})
  {
    var g := Guard(db.projects, db.projectMembers, db.requirements, id, caller, false);
    if g.Err? {
      return Err(g.status, g.detail);
    }
    db.requirements := db.requirements - {id};
    r := Ok(RequirementDeleted("deleted", id));
  }
}
