/** The AI request history: logs are written for a project by its owner,
    listed newest first, read, edited and deleted by the owner only. */
module RequestLogs {
  import opened Common
  import opened Models
  import Sorting

  const NotOwned: string := "Project not found or not owned by user"
  const LogNotFound: string := "Log not found"
  const NotAllowed: string := "Not allowed"

  /** The project, when it exists and `userId` owns it; membership does not
      count. */
  function EnsureProjectOwner(projects: map<int, Project>, projectId: int, userId: int): (r: Result<Project>)
    ensures r.Ok? <==> projectId in projects && projects[projectId].ownerUserId == userId
    ensures r.Ok? ==> r.value == projects[projectId]
    ensures r.Err? ==> r == Err(403, NotOwned)
  {
    if projectId in projects && projects[projectId].ownerUserId == userId then Ok(projects[projectId])
    else Err(403, NotOwned)
  }

  /** An editor who is not the owner is refused. */
  lemma EditorIsNotOwner(owner: int, userId: int)
    requires owner != userId
    ensures var projects := map[1 := Project(1, "p", None, None, owner, 0)];
            var members := map[(1, userId) := ProjectMember(1, 1, userId, "editor", 0)];
            (1, userId) in members && EnsureProjectOwner(projects, 1, userId) == Err(403, NotOwned)
  {
  }

  /** What an AI endpoint answers: the parsed JSON as the model returned it
      and the raw text. */
  datatype AIOut<J> = AIOut(parsedJson: J, rawText: string)

  lemma InsertKeepsRequestLogsValid(m: map<int, RequestLog>, projects: map<int, Project>, l: RequestLog)
    requires RequestLogsValid(m, projects) && l.projectId in projects
    ensures RequestLogsValid(m[l.id := l], projects)
  {
  }

  /** Appends one log whose output is the raw text, and answers with the
      parsed JSON untouched. */
  method LogAndReturn<J>(db: Database, projectId: int, endpoint: string, inputText: string,
                         rawText: string, parsedJson: J, now: int) returns (r: AIOut<J>)
    requires RequestLogsValid(db.requestLogs, db.projects) && projectId in db.projects
    modifies db`requestLogs
    ensures RequestLogsValid(db.requestLogs, db.projects)
    ensures r == AIOut(parsedJson, rawText)
    ensures var id := NewId(old(db.requestLogs).Keys);
            db.requestLogs == old(db.requestLogs)[id := RequestLog(id, projectId, endpoint, inputText, rawText, now)]
  {
    var l := RequestLog(NewId(db.requestLogs.Keys), projectId, endpoint, inputText, rawText, now);
    InsertKeepsRequestLogsValid(db.requestLogs, db.projects, l);
    db.requestLogs := db.requestLogs[l.id := l];
    r := AIOut(parsedJson, rawText);
  }

  datatype HistoryItem = HistoryItem(id: int, projectId: int, endpoint: string, createdAt: int)

  /** The logs of project `projectId`. */
  function LogsOf(logs: map<int, RequestLog>, projectId: int): (r: set<int>)
    ensures forall k :: k in r <==> k in logs && logs[k].projectId == projectId
  {
    set k | k in logs && logs[k].projectId == projectId
  }

  function ToItem(l: RequestLog): (r: HistoryItem)
    ensures r.id == l.id && r.projectId == l.projectId && r.endpoint == l.endpoint && r.createdAt == l.createdAt
  {
    HistoryItem(l.id, l.projectId, l.endpoint, l.createdAt)
  }

  /** The ids the history query selects: the project's logs, largest id
      first, cut to `min(limit, 200)`. */
  function HistoryKeys(logs: map<int, RequestLog>, projectId: int, limit: int): (ks: seq<int>)
    ensures limit >= 0 ==> |ks| <= limit
    ensures |ks| <= 200 || limit < 0
    ensures |ks| <= |LogsOf(logs, projectId)|
    ensures forall i :: 0 <= i < |ks| ==> ks[i] in logs && logs[ks[i]].projectId == projectId
    ensures forall i, j :: 0 <= i < j < |ks| ==> ks[i] > ks[j]
  {
    var n := Min(limit, 200);
    var own := LogsOf(logs, projectId);
    // SQLite reads a negative LIMIT as no limit at all.
    Sorting.Largest(own, if n < 0 then |own| else n)
  }

  function Min(a: int, b: int): int { if a < b then a else b }

  /** The history query keeps the newest logs: `min(limit, 200)` of them
      when the project has that many, and every log it leaves out is older
      than every log it keeps. */
  lemma {:induction false} HistoryKeysNewest(logs: map<int, RequestLog>, projectId: int, limit: int, k: int)
    requires k in logs && logs[k].projectId == projectId && k !in HistoryKeys(logs, projectId, limit)
    ensures limit >= 0 ==> |HistoryKeys(logs, projectId, limit)| == Min(|LogsOf(logs, projectId)|, Min(limit, 200))
    ensures forall i :: 0 <= i < |HistoryKeys(logs, projectId, limit)| ==> HistoryKeys(logs, projectId, limit)[i] > k
  {
    var n := Min(limit, 200);
    var own := LogsOf(logs, projectId);
    Sorting.LargestKeepsNewest(own, if n < 0 then |own| else n, k);
  }

  /** The owner's view of a project's logs: newest (largest id) first,
      `min(limit, 200)` of them at most; the limit has no lower clamp. */
  function History(projects: map<int, Project>, logs: map<int, RequestLog>,
                   projectId: int, limit: int, caller: User): (r: Result<seq<HistoryItem>>)
    requires RequestLogsKeyed(logs)
    ensures EnsureProjectOwner(projects, projectId, caller.id).Err? <==> r == Err(403, NotOwned)
    ensures r.Ok? ==>
      var rows := r.value;
      && (limit >= 0 ==> |rows| <= limit)
      && |rows| <= |LogsOf(logs, projectId)|
      && (forall i :: 0 <= i < |rows| ==> rows[i].id in logs && rows[i] == ToItem(logs[rows[i].id])
                                          && rows[i].projectId == projectId)
      && (forall i, j :: 0 <= i < j < |rows| ==> rows[i].id > rows[j].id)
  {
    if EnsureProjectOwner(projects, projectId, caller.id).Err? then Err(403, NotOwned)
    else
      Ok(ItemsOf(logs, HistoryKeys(logs, projectId, limit)))
  }

  /** The history items of the logs with keys `ks`, in that order. */
  function ItemsOf(logs: map<int, RequestLog>, ks: seq<int>): (rows: seq<HistoryItem>)
    requires RequestLogsKeyed(logs) && forall i :: 0 <= i < |ks| ==> ks[i] in logs
    ensures |rows| == |ks|
    ensures forall i :: 0 <= i < |ks| ==> rows[i] == ToItem(logs[ks[i]]) && rows[i].id == ks[i]
  {
    seq(|ks|, i requires 0 <= i < |ks| => ToItem(logs[ks[i]]))
  }

  /** With a negative limit every log of the project is listed. */
  lemma NegativeLimitListsAll(projects: map<int, Project>, logs: map<int, RequestLog>,
                              projectId: int, limit: int, caller: User, k: int)
    requires RequestLogsKeyed(logs) && limit < 0
    requires EnsureProjectOwner(projects, projectId, caller.id).Ok?
    requires k in logs && logs[k].projectId == projectId
    ensures ToItem(logs[k]) in History(projects, logs, projectId, limit, caller).value
  {
    var ks := HistoryKeys(logs, projectId, limit);
    var own := LogsOf(logs, projectId);
    assert ks == Sorting.Take(Sorting.Descending(own), |own|) == Sorting.Descending(own);
    var i :| 0 <= i < |ks| && ks[i] == k;
    assert History(projects, logs, projectId, limit, caller).value[i] == ToItem(logs[k]);
  }

  /** A log the history leaves out is older than every log it shows, and
      then the history holds `min(limit, 200)` logs. */
  lemma {:induction false} HistoryShowsNewest(projects: map<int, Project>, logs: map<int, RequestLog>,
                                              projectId: int, limit: int, caller: User, k: int)
    requires RequestLogsKeyed(logs)
    requires EnsureProjectOwner(projects, projectId, caller.id).Ok?
    requires k in logs && logs[k].projectId == projectId
    requires forall i :: 0 <= i < |History(projects, logs, projectId, limit, caller).value|
                         ==> History(projects, logs, projectId, limit, caller).value[i].id != k
    ensures var rows := History(projects, logs, projectId, limit, caller).value;
            && (forall i :: 0 <= i < |rows| ==> rows[i].id > k)
            && (limit >= 0 ==> |rows| == Min(|LogsOf(logs, projectId)|, Min(limit, 200)))
  {
    var ks := HistoryKeys(logs, projectId, limit);
    var rows := History(projects, logs, projectId, limit, caller).value;
    IdsMissKey(ks, rows, k);
    HistoryKeysNewest(logs, projectId, limit, k);
  }

  /** Rows that carry the keys `ks` in order, none of them with id `k`,
      mean `k` is not among the keys. */
  lemma IdsMissKey(ks: seq<int>, rows: seq<HistoryItem>, k: int)
    requires |rows| == |ks| && forall i :: 0 <= i < |ks| ==> rows[i].id == ks[i]
    requires forall i :: 0 <= i < |rows| ==> rows[i].id != k
    ensures k !in ks
  {
    assert forall i :: 0 <= i < |ks| ==> ks[i] != k;
  }

  /** A limit above 200 lists no more than 200. */
  lemma LimitCappedAt200(projects: map<int, Project>, logs: map<int, RequestLog>,
                         projectId: int, limit: int, caller: User)
    requires RequestLogsKeyed(logs) && limit >= 200
    requires EnsureProjectOwner(projects, projectId, caller.id).Ok?
    ensures |History(projects, logs, projectId, limit, caller).value| <= 200
  {
  }

  datatype RequestLogOut = RequestLogOut(
    id: int, projectId: int, endpoint: string, inputText: string, outputText: string, createdAt: int)

  function ToLogOut(l: RequestLog): (r: RequestLogOut)
    ensures r.id == l.id && r.projectId == l.projectId && r.endpoint == l.endpoint
    ensures r.inputText == l.inputText && r.outputText == l.outputText && r.createdAt == l.createdAt
  {
    RequestLogOut(l.id, l.projectId, l.endpoint, l.inputText, l.outputText, l.createdAt)
  }

  /** The guard the detail, update and delete handlers share: 404 for a
      missing log before 403 when its project is missing or not the
      caller's. */
  function LogGuard(projects: map<int, Project>, logs: map<int, RequestLog>, logId: int, caller: User): (r: Result<RequestLog>)
    ensures logId !in logs <==> r == Err(404, LogNotFound)
    ensures logId in logs ==>
      (r.Ok? <==> logs[logId].projectId in projects && projects[logs[logId].projectId].ownerUserId == caller.id)
    ensures r.Ok? ==> logId in logs && r.value == logs[logId]
    ensures r.Err? ==> r == Err(404, LogNotFound) || r == Err(403, NotAllowed)
  {
    if logId !in logs then Err(404, LogNotFound)
    else
      var log := logs[logId];
      if log.projectId !in projects || projects[log.projectId].ownerUserId != caller.id then Err(403, NotAllowed)
      else Ok(log)
  }

  function HistoryDetail(projects: map<int, Project>, logs: map<int, RequestLog>, logId: int, caller: User): (r: Result<RequestLogOut>)
    ensures logId !in logs <==> r == Err(404, LogNotFound)
    ensures logId in logs ==>
      (r.Ok? <==> logs[logId].projectId in projects && projects[logs[logId].projectId].ownerUserId == caller.id)
    ensures r.Err? ==> r == Err(404, LogNotFound) || r == Err(403, NotAllowed)
    ensures r.Ok? ==> logId in logs && r.value == ToLogOut(logs[logId])
  {
    var g := LogGuard(projects, logs, logId, caller);
    if g.Err? then Err(g.status, g.detail) else Ok(ToLogOut(g.value))
  }

  datatype RequestLogCreateIn = RequestLogCreateIn(projectId: int, endpoint: string, inputText: string, outputText: string)

  /** Stores a log given in full by the project's owner. */
  method CreateRequestLog(db: Database, payload: RequestLogCreateIn, caller: User, now: int) returns (r: Result<RequestLogOut>)
    requires RequestLogsValid(db.requestLogs, db.projects)
    modifies db`requestLogs
    ensures RequestLogsValid(db.requestLogs, db.projects)
    ensures EnsureProjectOwner(db.projects, payload.projectId, caller.id).Err?
        ==> r == Err(403, NotOwned) && db.requestLogs == old(db.requestLogs)
    ensures EnsureProjectOwner(db.projects, payload.projectId, caller.id).Ok? ==>
      var l := RequestLog(NewId(old(db.requestLogs).Keys), payload.projectId, payload.endpoint,
                          payload.inputText, payload.outputText, now);
      r == Ok(ToLogOut(l)) && db.requestLogs == old(db.requestLogs)[l.id := l]
  {
    if EnsureProjectOwner(db.projects, payload.projectId, caller.id).Err? {
      return Err(403, NotOwned);
    }
    var l := RequestLog(NewId(db.requestLogs.Keys), payload.projectId, payload.endpoint,
                        payload.inputText, payload.outputText, now);
    InsertKeepsRequestLogsValid(db.requestLogs, db.projects, l);
    db.requestLogs := db.requestLogs[l.id := l];
    r := Ok(ToLogOut(l));
  }

  datatype RequestLogUpdateIn = RequestLogUpdateIn(inputText: Option<string>, outputText: Option<string>)

  /** `x`'s value when it is given, `d` otherwise. */
  function OrElse(x: Option<string>, d: string): (r: string)
    ensures x.None? ==> r == d
    ensures x.Some? ==> r == x.value
  {
    if x.Some? then x.value else d
  }

  /** Replaces the texts that are given; the endpoint, the project and the
      creation time never change. */
  method UpdateRequestLog(db: Database, logId: int, payload: RequestLogUpdateIn, caller: User) returns (r: Result<RequestLogOut>)
    requires RequestLogsValid(db.requestLogs, db.projects)
    modifies db`requestLogs
    ensures RequestLogsValid(db.requestLogs, db.projects)
    ensures var g := LogGuard(db.projects, old(db.requestLogs), logId, caller);
            && (g.Err? <==> r.Err?)
            && (g.Err? ==> r == Err(g.status, g.detail) && db.requestLogs == old(db.requestLogs))
    ensures r.Ok? ==>
      && logId in old(db.requestLogs)
      && var l := old(db.requestLogs)[logId];
         var updated := l.(inputText := OrElse(payload.inputText, l.inputText),
                           outputText := OrElse(payload.outputText, l.outputText));
         && updated.endpoint == l.endpoint && updated.projectId == l.projectId
         && r.value == ToLogOut(updated)
         && db.requestLogs == old(db.requestLogs)[logId := updated]
  {
    var g := LogGuard(db.projects, db.requestLogs, logId, caller);
    if g.Err? {
      return Err(g.status, g.detail);
    }
    var log := g.value;
    if payload.inputText.Some? {
      log := log.(inputText := payload.inputText.value);
    }
    if payload.outputText.Some? {
      log := log.(outputText := payload.outputText.value);
    }
    db.requestLogs := db.requestLogs[logId := log];
    r := Ok(ToLogOut(log));
  }

  datatype LogDeleted = LogDeleted(deleted: bool)

  /** Removes exactly the log `logId`. */
  method DeleteRequestLog(db: Database, logId: int, caller: User) returns (r: Result<LogDeleted>)
    requires RequestLogsValid(db.requestLogs, db.projects)
    modifies db`requestLogs
    ensures RequestLogsValid(db.requestLogs, db.projects)
    ensures var g := LogGuard(db.projects, old(db.requestLogs), logId, caller);
            && (g.Err? <==> r.Err?)
            && (g.Err? ==> r == Err(g.status, g.detail) && db.requestLogs == old(db.requestLogs))
    ensures r.Ok? ==> r.value == LogDeleted(true) && db.requestLogs == old(db.requestLogs) - {logId}
  {
    var g := LogGuard(db.projects, db.requestLogs, logId, caller);
    if g.Err? {
      return Err(g.status, g.detail);
    }
    db.requestLogs := db.requestLogs - {logId};
    r := Ok(LogDeleted(true));
  }
}
