/** The four AI endpoints of the application: each checks the API key,
    then that the caller owns the project, and only then asks the model
    and records the exchange in the request log. */
module AiEndpoints {
  import opened Common
  import opened Models
  import RequestLogs

  const NotOwned: string := "Project not found or not owned by user"
  const NoKey: string := "OPENAI_API_KEY not configured"
  const ComponentsHeader: string := "\n\nCHANGED_COMPONENTS:\n"
  const BugReportsHeader: string := "\n\nBUG_REPORTS:\n"

  /** This file's own owner guard: one query for a project with this id
      and this owner. */
  function EnsureProjectOwner(projects: map<int, Project>, projectId: int, userId: int): (r: Result<Project>)
    ensures r.Ok? <==> projectId in projects && projects[projectId].ownerUserId == userId
    ensures r.Ok? ==> r.value == projects[projectId]
    ensures r.Err? ==> r == Err(403, NotOwned)
  {
    if projectId in projects && projects[projectId].ownerUserId == userId then Ok(projects[projectId])
    else Err(403, NotOwned)
  }

  /** It decides exactly as the request-log guard does. */
  lemma OwnerGuardsAgree(projects: map<int, Project>, projectId: int, userId: int)
    ensures EnsureProjectOwner(projects, projectId, userId) == RequestLogs.EnsureProjectOwner(projects, projectId, userId)
  {
  }

  /** The request bodies of the four endpoints. */
  datatype AiRequest =
    | TestCasesIn(projectId: int, requirement: string)
    | RiskIn(projectId: int, requirement: string)
    | RegressionIn(projectId: int, changeDescription: string, changedComponents: Option<seq<string>>)
    | SummaryIn(projectId: int, testResults: string, bugReports: Option<string>)

  /** The endpoint label each handler logs under. */
  function Endpoint(req: AiRequest): (e: string)
    ensures req.TestCasesIn? <==> e == "testcases"
    ensures req.RiskIn? <==> e == "risk"
    ensures req.RegressionIn? <==> e == "regression"
    ensures req.SummaryIn? <==> e == "summary"
  {
    match req
    case TestCasesIn(_, _) => "testcases"
    case RiskIn(_, _) => "risk"
    case RegressionIn(_, _, _) => "regression"
    case SummaryIn(_, _, _) => "summary"
  }

  /** The main text of the request, the head of the logged input. */
  function MainText(req: AiRequest): string {
    match req
    case TestCasesIn(_, t) => t
    case RiskIn(_, t) => t
    case RegressionIn(_, d, _) => d
    case SummaryIn(_, t, _) => t
  }

  /** The text appended to the logged input, "" when there is none: the
      components only when the list is present and non-empty, the bug
      reports only when present and non-empty. */
  function Appendix(req: AiRequest): (a: string)
    ensures req.TestCasesIn? || req.RiskIn? ==> a == ""
    ensures req.RegressionIn? ==>
      if req.changedComponents.Some? && req.changedComponents.value != [] then
        a == ComponentsHeader + Join(req.changedComponents.value, "\n")
      else a == ""
    ensures req.SummaryIn? ==>
      if Given(req.bugReports) then a == BugReportsHeader + req.bugReports.value else a == ""
  {
    match req
    case RegressionIn(_, _, cs) =>
      if cs.Some? && cs.value != [] then ComponentsHeader + Join(cs.value, "\n") else ""
    case SummaryIn(_, _, b) => if Given(b) then BugReportsHeader + b.value else ""
    case _ => ""
  }

  /** `input_text`: the main text, then `+=` of the appendix where the
      handler has one. */
  method InputText(req: AiRequest) returns (t: string)
    ensures t == MainText(req) + Appendix(req)
  {
    match req {
      case RegressionIn(_, d, cs) =>
        t := d;
        if cs.Some? && cs.value != [] {
          t := t + ComponentsHeader + Join(cs.value, "\n");
        }
      case SummaryIn(_, r, b) =>
        t := r;
        if Given(b) {
          t := t + BugReportsHeader + b.value;
        }
      case TestCasesIn(_, r) =>
        t := r;
      case RiskIn(_, r) =>
        t := r;
    }
  }

  /** Without components the logged input is the description alone. */
  lemma NoComponentsLogsDescription(projectId: int, d: string, cs: Option<seq<string>>)
    requires cs.None? || cs.value == []
    ensures MainText(RegressionIn(projectId, d, cs)) + Appendix(RegressionIn(projectId, d, cs)) == d
  {
  }

  /** Without bug reports the logged input is the test results alone. */
  lemma NoBugReportsLogsResults(projectId: int, r: string, b: Option<string>)
    requires !Given(b)
    ensures MainText(SummaryIn(projectId, r, b)) + Appendix(SummaryIn(projectId, r, b)) == r
  {
  }

  /** The components can be read back from the logged input: after the
      description and the header, the lines are the components, when none
      of them holds a newline. */
  lemma ComponentsReadBack(projectId: int, d: string, cs: seq<string>)
    requires cs != [] && forall i :: 0 <= i < |cs| ==> '\n' !in cs[i]
    ensures var t := MainText(RegressionIn(projectId, d, Some(cs))) + Appendix(RegressionIn(projectId, d, Some(cs)));
            && |t| >= |d| + |ComponentsHeader|
            && t[..|d|] == d
            && t[|d|..|d| + |ComponentsHeader|] == ComponentsHeader
            && Split(t[|d| + |ComponentsHeader|..], '\n') == cs
  {
    var t := d + (ComponentsHeader + Join(cs, "\n"));
    assert MainText(RegressionIn(projectId, d, Some(cs))) + Appendix(RegressionIn(projectId, d, Some(cs))) == t;
    assert t[..|d|] == d;
    assert t[|d|..|d| + |ComponentsHeader|] == ComponentsHeader;
    assert t[|d| + |ComponentsHeader|..] == Join(cs, "\n");
    SplitJoin(cs, '\n');
  }

  /** A handler: the key check, then the owner check, and only after both
      the model's answer (`raw`, `parsed`, standing for the call with the
      endpoint's prompt) is logged and returned.  A failed check writes
      nothing. */
  method Handle<J>(db: Database, req: AiRequest, caller: User, apiKey: Option<string>,
                   raw: string, parsed: J, now: int) returns (r: Result<RequestLogs.AIOut<J>>)
    requires RequestLogsValid(db.requestLogs, db.projects)
    modifies db`requestLogs
    ensures RequestLogsValid(db.requestLogs, db.projects)
    ensures !Given(apiKey) ==> r == Err(500, NoKey) && db.requestLogs == old(db.requestLogs)
    ensures Given(apiKey) && EnsureProjectOwner(db.projects, req.projectId, caller.id).Err? ==>
              r == Err(403, NotOwned) && db.requestLogs == old(db.requestLogs)
    ensures r.Ok? <==> Given(apiKey) && EnsureProjectOwner(db.projects, req.projectId, caller.id).Ok?
    ensures r.Ok? ==>
      && r.value == RequestLogs.AIOut(parsed, raw)
      && var id := NewId(old(db.requestLogs).Keys);
         db.requestLogs == old(db.requestLogs)[id := RequestLog(id, req.projectId, Endpoint(req),
                                                                MainText(req) + Appendix(req), raw, now)]
  {
    if !Given(apiKey) {
      return Err(500, NoKey);
    }
    var g := EnsureProjectOwner(db.projects, req.projectId, caller.id);
    if g.Err? {
      return Err(g.status, g.detail);
    }
    var input := InputText(req);
    var out := RequestLogs.LogAndReturn(db, req.projectId, Endpoint(req), input, raw, parsed, now);
    r := Ok(out);
  }

  /** A member who is not the owner, even an editor, writes no log. */
  lemma MemberCannotCallAi(projects: map<int, Project>, projectId: int, userId: int)
    requires projectId in projects && projects[projectId].ownerUserId != userId
    ensures EnsureProjectOwner(projects, projectId, userId) == Err(403, NotOwned)
  {
  }
}
