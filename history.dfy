/** The project timeline: the latest requirements and test cases of a
    project, merged newest first. */
module History {
  import opened Common
  import opened Models
  import Sorting
  import Permissions

  datatype Kind = RequirementItem | TestCaseItem

  /** One timeline entry; the fields a kind does not have are `None`. */
  datatype HistoryItemOut = HistoryItemOut(
    kind: Kind, id: int, projectId: int, createdAt: int,
    requirementId: Option<int>, title: Option<string>, description: Option<string>,
    expectedResult: Option<string>, priority: Option<string>, status: Option<string>)

  /** `max(1, min(limit, 500))`. */
  function ClampLimit(limit: int): (r: int)
    ensures 1 <= r <= 500
    ensures 1 <= limit <= 500 ==> r == limit
    ensures limit < 1 ==> r == 1
    ensures 500 < limit ==> r == 500
  {
    var upper := if limit < 500 then limit else 500;
    if 1 < upper then upper else 1
  }

  predicate RequirementNewer(a: Requirement, b: Requirement) { a.createdAt >= b.createdAt }
  predicate TestCaseNewer(a: TestCase, b: TestCase) { a.createdAt >= b.createdAt }
  predicate ItemNewer(a: HistoryItemOut, b: HistoryItemOut) { a.createdAt >= b.createdAt }

  lemma ItemNewerTotal()
    ensures Sorting.Total(ItemNewer)
  {
  }

  lemma RequirementNewerTotal()
    ensures Sorting.Total(RequirementNewer)
  {
  }

  lemma TestCaseNewerTotal()
    ensures Sorting.Total(TestCaseNewer)
  {
  }

  lemma ItemNewerTransitive()
    ensures Sorting.Transitive(ItemNewer)
  {
  }

  lemma RequirementNewerTransitive()
    ensures Sorting.Transitive(RequirementNewer)
  {
  }

  lemma TestCaseNewerTransitive()
    ensures Sorting.Transitive(TestCaseNewer)
  {
  }

  /** The entry is no older than `t`. */
  function Since(t: int): HistoryItemOut -> bool {
    (e: HistoryItemOut) => e.createdAt >= t
  }

  /** The newest `limit` requirements of the project (`ORDER BY created_at
      DESC LIMIT limit`; rows with the same time in id order). */
  function RecentRequirements(reqs: map<int, Requirement>, projectId: int, limit: int): seq<Requirement> {
    Sorting.Take(Sorting.SortBy(RowsAt(reqs, Sorting.Ascending(RequirementsOf(reqs, projectId))), RequirementNewer), limit)
  }

  /** The newest `limit` test cases of the project. */
  function RecentTestCases(tcs: map<int, TestCase>, projectId: int, limit: int): seq<TestCase> {
    Sorting.Take(Sorting.SortBy(RowsAt(tcs, Sorting.Ascending(TestCasesOf(tcs, projectId))), TestCaseNewer), limit)
  }

  /** `x` is the stored requirement `x.id` of the project. */
  predicate StoredRequirement(reqs: map<int, Requirement>, projectId: int, x: Requirement) {
    x.id in reqs && reqs[x.id] == x && x.projectId == projectId
  }

  predicate StoredTestCase(tcs: map<int, TestCase>, projectId: int, x: TestCase) {
    x.id in tcs && tcs[x.id] == x && x.projectId == projectId
  }

  lemma RecentRequirementsFacts(reqs: map<int, Requirement>, projectId: int, limit: int)
    requires RequirementsKeyed(reqs)
    ensures var r := RecentRequirements(reqs, projectId, limit);
            && (|r| <= limit || limit < 0)
            && (forall x :: x in r ==> StoredRequirement(reqs, projectId, x))
            && Sorting.Sorted(r, RequirementNewer)
  {
    var rows := RowsAt(reqs, Sorting.Ascending(RequirementsOf(reqs, projectId)));
    assert forall x :: x in rows ==> StoredRequirement(reqs, projectId, x);
    Sorting.TakeSortByMembers(rows, RequirementNewer, limit);
    RequirementNewerTotal();
    Sorting.TakeSortBySorted(rows, RequirementNewer, limit);
  }

  lemma RecentTestCasesFacts(tcs: map<int, TestCase>, projectId: int, limit: int)
    requires TestCasesKeyed(tcs)
    ensures var r := RecentTestCases(tcs, projectId, limit);
            && (|r| <= limit || limit < 0)
            && (forall x :: x in r ==> StoredTestCase(tcs, projectId, x))
            && Sorting.Sorted(r, TestCaseNewer)
  {
    var rows := RowsAt(tcs, Sorting.Ascending(TestCasesOf(tcs, projectId)));
    assert forall x :: x in rows ==> StoredTestCase(tcs, projectId, x);
    Sorting.TakeSortByMembers(rows, TestCaseNewer, limit);
    TestCaseNewerTotal();
    Sorting.TakeSortBySorted(rows, TestCaseNewer, limit);
  }

  /** A project requirement the fetch leaves out is no newer than any it
      keeps, and then the fetch is full. */
  lemma RecentRequirementsNewest(reqs: map<int, Requirement>, projectId: int, limit: int, k: int)
    requires k in reqs && reqs[k].projectId == projectId
    requires reqs[k] !in RecentRequirements(reqs, projectId, limit)
    ensures limit >= 0 ==> |RecentRequirements(reqs, projectId, limit)| == limit
    ensures forall x :: x in RecentRequirements(reqs, projectId, limit) ==> x.createdAt >= reqs[k].createdAt
  {
    var ks := Sorting.Ascending(RequirementsOf(reqs, projectId));
    var rows := RowsAt(reqs, ks);
    var i :| 0 <= i < |ks| && ks[i] == k;
    assert rows[i] == reqs[k];
    RequirementNewerTotal();
    RequirementNewerTransitive();
    Sorting.DroppedFollowsKept(rows, RequirementNewer, limit, reqs[k]);
  }

  /** A project test case the fetch leaves out is no newer than any it
      keeps, and then the fetch is full. */
  lemma RecentTestCasesNewest(tcs: map<int, TestCase>, projectId: int, limit: int, k: int)
    requires k in tcs && tcs[k].projectId == projectId
    requires tcs[k] !in RecentTestCases(tcs, projectId, limit)
    ensures limit >= 0 ==> |RecentTestCases(tcs, projectId, limit)| == limit
    ensures forall x :: x in RecentTestCases(tcs, projectId, limit) ==> x.createdAt >= tcs[k].createdAt
  {
    var ks := Sorting.Ascending(TestCasesOf(tcs, projectId));
    var rows := RowsAt(tcs, ks);
    var i :| 0 <= i < |ks| && ks[i] == k;
    assert rows[i] == tcs[k];
    TestCaseNewerTotal();
    TestCaseNewerTransitive();
    Sorting.DroppedFollowsKept(rows, TestCaseNewer, limit, tcs[k]);
  }

  function RequirementEntry(r: Requirement): (e: HistoryItemOut)
    ensures e.kind == RequirementItem && e.id == r.id && e.projectId == r.projectId && e.createdAt == r.createdAt
  {
    HistoryItemOut(RequirementItem, r.id, r.projectId, r.createdAt, None, Some(r.title), Some(r.description), None, None, None)
  }

  function TestCaseEntry(t: TestCase): (e: HistoryItemOut)
    ensures e.kind == TestCaseItem && e.id == t.id && e.projectId == t.projectId && e.createdAt == t.createdAt
  {
    HistoryItemOut(TestCaseItem, t.id, t.projectId, t.createdAt, t.requirementId, Some(t.title), t.description,
                   t.expectedResult, t.priority, t.status)
  }

  /** The entries of `rs`, one appended per requirement. */
  function RequirementEntries(rs: seq<Requirement>): (r: seq<HistoryItemOut>)
    ensures |r| == |rs|
    ensures forall i :: 0 <= i < |rs| ==> r[i] == RequirementEntry(rs[i])
    decreases |rs|
  {
    if |rs| == 0 then [] else RequirementEntries(rs[..|rs| - 1]) + [RequirementEntry(rs[|rs| - 1])]
  }

  /** The entries of `ts`, one appended per test case. */
  function TestCaseEntries(ts: seq<TestCase>): (r: seq<HistoryItemOut>)
    ensures |r| == |ts|
    ensures forall i :: 0 <= i < |ts| ==> r[i] == TestCaseEntry(ts[i])
    decreases |ts|
  {
    if |ts| == 0 then [] else TestCaseEntries(ts[..|ts| - 1]) + [TestCaseEntry(ts[|ts| - 1])]
  }

  /** The entries of the fetched requirements, then of the fetched test
      cases. */
  function Fetched(rs: seq<Requirement>, ts: seq<TestCase>): (r: seq<HistoryItemOut>)
    ensures |r| == |rs| + |ts|
    ensures forall i :: 0 <= i < |rs| ==> r[i] == RequirementEntry(rs[i])
    ensures forall i :: 0 <= i < |ts| ==> r[|rs| + i] == TestCaseEntry(ts[i])
  {
    RequirementEntries(rs) + TestCaseEntries(ts)
  }

  /** The entry is that of one of the project's requirements or test
      cases, of the kind it came from. */
  predicate FromProject(e: HistoryItemOut, reqs: map<int, Requirement>, tcs: map<int, TestCase>, projectId: int) {
    && e.projectId == projectId
    && (e.kind == RequirementItem ==> e.id in reqs && e == RequirementEntry(reqs[e.id]))
    && (e.kind == TestCaseItem ==> e.id in tcs && e == TestCaseEntry(tcs[e.id]))
  }

  /** What the handler answers: the fetched entries sorted newest first
      (stably: equal times keep requirements before test cases) and cut to
      the limit. */
  function MergedHistory(reqs: map<int, Requirement>, tcs: map<int, TestCase>, projectId: int, limit: int): seq<HistoryItemOut> {
    Timeline(Fetched(RecentRequirements(reqs, projectId, limit), RecentTestCases(tcs, projectId, limit)), limit)
  }

  /** `items.sort(key=created_at, reverse=True)` followed by `items[:limit]`. */
  function Timeline(items: seq<HistoryItemOut>, limit: int): (r: seq<HistoryItemOut>)
    ensures |r| <= limit || limit < 0
  {
    Sorting.Take(Sorting.SortBy(items, ItemNewer), limit)
  }

  /** The timeline holds at most `limit` entries, newest first, each one
      from the project and labelled with the table it came from. */
  lemma MergedHistoryFacts(reqs: map<int, Requirement>, tcs: map<int, TestCase>, projectId: int, limit: int)
    requires RequirementsKeyed(reqs) && TestCasesKeyed(tcs)
    ensures var r := MergedHistory(reqs, tcs, projectId, limit);
            && (|r| <= limit || limit < 0)
            && Sorting.Sorted(r, ItemNewer)
            && forall e :: e in r ==> FromProject(e, reqs, tcs, projectId)
  {
    var rs := RecentRequirements(reqs, projectId, limit);
    var ts := RecentTestCases(tcs, projectId, limit);
    RecentRequirementsFacts(reqs, projectId, limit);
    RecentTestCasesFacts(tcs, projectId, limit);
    FetchedFromProject(reqs, tcs, projectId, rs, ts);
    TimelineFacts(Fetched(rs, ts), limit);
  }

  /** Entries made from stored rows of the project come from the project. */
  lemma FetchedFromProject(reqs: map<int, Requirement>, tcs: map<int, TestCase>, projectId: int,
                           rs: seq<Requirement>, ts: seq<TestCase>)
    requires forall x :: x in rs ==> StoredRequirement(reqs, projectId, x)
    requires forall x :: x in ts ==> StoredTestCase(tcs, projectId, x)
    ensures forall e :: e in Fetched(rs, ts) ==> FromProject(e, reqs, tcs, projectId)
  {
    var fetched := Fetched(rs, ts);
    forall e | e in fetched ensures FromProject(e, reqs, tcs, projectId) {
      var i :| 0 <= i < |fetched| && fetched[i] == e;
      if i < |rs| {
        assert rs[i] in rs;
      } else {
        assert ts[i - |rs|] in ts;
      }
    }
  }

  /** The timeline is in order and keeps only entries it was given. */
  lemma TimelineFacts(items: seq<HistoryItemOut>, limit: int)
    ensures Sorting.Sorted(Timeline(items, limit), ItemNewer)
    ensures forall e :: e in Timeline(items, limit) ==> e in items
  {
    Sorting.TakeSortByMembers(items, ItemNewer, limit);
    ItemNewerTotal();
    Sorting.TakeSortBySorted(items, ItemNewer, limit);
  }

  /** An entry the cut leaves out is no newer than any it keeps, and then
      the timeline is full. */
  lemma TimelineNewest(items: seq<HistoryItemOut>, limit: int, e: HistoryItemOut)
    requires e in items && e !in Timeline(items, limit)
    ensures limit >= 0 ==> |Timeline(items, limit)| == limit
    ensures forall x :: x in Timeline(items, limit) ==> x.createdAt >= e.createdAt
  {
    ItemNewerTotal();
    ItemNewerTransitive();
    Sorting.DroppedFollowsKept(items, ItemNewer, limit, e);
  }

  /** When at least `limit` entries are no older than `t`, the timeline is
      full and shows only such entries. */
  lemma CrowdedTimeline(items: seq<HistoryItemOut>, limit: int, t: int)
    requires 0 <= limit <= Sorting.Count(items, Since(t))
    ensures |Timeline(items, limit)| == limit
    ensures forall x :: x in Timeline(items, limit) ==> x.createdAt >= t
  {
    var s := Sorting.SortBy(items, ItemNewer);
    var r := Timeline(items, limit);
    Sorting.CountSortBy(items, ItemNewer, Since(t));
    ItemNewerTotal();
    ItemNewerTransitive();
    Sorting.SortBySorted(items, ItemNewer);
    forall x | x in r ensures x.createdAt >= t {
      var i :| 0 <= i < |r| && r[i] == x;
      if x.createdAt < t {
        assert s[i] == x;
        var tail := s[i..];
        forall j | 0 <= j < |tail| ensures !Since(t)(tail[j]) {
          if 0 < j {
            Sorting.SortedChain(s, ItemNewer, i, i + j);
          }
        }
        Sorting.CountNone(tail, Since(t));
        assert s[..i] + tail == s;
        Sorting.CountAppend(s[..i], tail, Since(t));
        assert false;
      }
    }
  }

  /** A requirement of the project that the timeline leaves out is no newer
      than any entry it shows, and then it shows `limit` entries, whatever
      order equal times come in. */
  lemma MergedHistoryShowsNewestRequirement(
    reqs: map<int, Requirement>, tcs: map<int, TestCase>, projectId: int, limit: int, k: int)
    requires k in reqs && reqs[k].projectId == projectId
    ensures var r := MergedHistory(reqs, tcs, projectId, limit);
            RequirementEntry(reqs[k]) !in r ==>
              && (limit >= 0 ==> |r| == limit)
              && forall e :: e in r ==> e.createdAt >= reqs[k].createdAt
  {
    if RequirementEntry(reqs[k]) in MergedHistory(reqs, tcs, projectId, limit) {
      return;
    }
    var rs := RecentRequirements(reqs, projectId, limit);
    var ts := RecentTestCases(tcs, projectId, limit);
    var fetched := Fetched(rs, ts);
    if reqs[k] in rs {
      var j :| 0 <= j < |rs| && rs[j] == reqs[k];
      assert fetched[j] == RequirementEntry(reqs[k]);
      TimelineNewest(fetched, limit, fetched[j]);
    } else if limit >= 0 {
      var t := reqs[k].createdAt;
      RecentRequirementsNewest(reqs, projectId, limit, k);
      var entries := RequirementEntries(rs);
      forall i | 0 <= i < |entries| ensures Since(t)(entries[i]) {
        assert rs[i] in rs;
      }
      Sorting.CountEvery(entries, Since(t));
      Sorting.CountAppend(entries, TestCaseEntries(ts), Since(t));
      CrowdedTimeline(fetched, limit, t);
    }
  }

  /** A test case of the project that the timeline leaves out is no newer
      than any entry it shows, and then it shows `limit` entries, whatever
      order equal times come in. */
  lemma MergedHistoryShowsNewestTestCase(
    reqs: map<int, Requirement>, tcs: map<int, TestCase>, projectId: int, limit: int, k: int)
    requires k in tcs && tcs[k].projectId == projectId
    ensures var r := MergedHistory(reqs, tcs, projectId, limit);
            TestCaseEntry(tcs[k]) !in r ==>
              && (limit >= 0 ==> |r| == limit)
              && forall e :: e in r ==> e.createdAt >= tcs[k].createdAt
  {
    if TestCaseEntry(tcs[k]) in MergedHistory(reqs, tcs, projectId, limit) {
      return;
    }
    var rs := RecentRequirements(reqs, projectId, limit);
    var ts := RecentTestCases(tcs, projectId, limit);
    var fetched := Fetched(rs, ts);
    if tcs[k] in ts {
      var j :| 0 <= j < |ts| && ts[j] == tcs[k];
      assert fetched[|rs| + j] == TestCaseEntry(tcs[k]);
      TimelineNewest(fetched, limit, fetched[|rs| + j]);
    } else if limit >= 0 {
      var t := tcs[k].createdAt;
      RecentTestCasesNewest(tcs, projectId, limit, k);
      var entries := TestCaseEntries(ts);
      forall i | 0 <= i < |entries| ensures Since(t)(entries[i]) {
        assert ts[i] in ts;
      }
      Sorting.CountEvery(entries, Since(t));
      Sorting.CountAppend(RequirementEntries(rs), entries, Since(t));
      CrowdedTimeline(fetched, limit, t);
    }
  }

  /** The two appending loops: the requirements' entries, then the test
      cases'. */
  method Collect(rs: seq<Requirement>, ts: seq<TestCase>) returns (items: seq<HistoryItemOut>)
    ensures items == Fetched(rs, ts)
  {
    items := [];
    var i := 0;
    while i < |rs|
      invariant 0 <= i <= |rs|
      invariant items == RequirementEntries(rs[..i])
    {
      assert rs[..i + 1][..i] == rs[..i];
      items := items + [RequirementEntry(rs[i])];
      i := i + 1;
    }
    assert rs[..i] == rs;
    var tail: seq<HistoryItemOut> := [];
    i := 0;
    while i < |ts|
      invariant 0 <= i <= |ts|
      invariant tail == TestCaseEntries(ts[..i]) && items == RequirementEntries(rs) + tail
    {
      assert ts[..i + 1][..i] == ts[..i];
      assert TestCaseEntries(ts[..i + 1]) == tail + [TestCaseEntry(ts[i])];
      items := items + [TestCaseEntry(ts[i])];
      tail := tail + [TestCaseEntry(ts[i])];
      i := i + 1;
    }
    assert ts[..i] == ts;
  }

  /** View access first, then the two queries, the two appending loops, the
      sort and the final cut. */
  method GetHistory(projects: map<int, Project>, members: map<(int, int), ProjectMember>,
                    reqs: map<int, Requirement>, tcs: map<int, TestCase>,
                    projectId: int, limit: int, caller: User) returns (r: Result<seq<HistoryItemOut>>)
    ensures var g := Permissions.EnsureProjectAccess(projects, members, projectId, caller.id, true);
            g.Err? ==> r == Err(g.status, g.detail)
    ensures r.Ok? <==> Permissions.EnsureProjectAccess(projects, members, projectId, caller.id, true).Ok?
    ensures r.Ok? ==> Permissions.EnsureProjectAccess(projects, members, projectId, caller.id, true).Ok?
                      && r.value == MergedHistory(reqs, tcs, projectId, ClampLimit(limit))
                      && |r.value| <= ClampLimit(limit)
  {
    var g := Permissions.EnsureProjectAccess(projects, members, projectId, caller.id, true);
    if g.Err? {
      return Err(g.status, g.detail);
    }
    var lim := ClampLimit(limit);
    var rs := RecentRequirements(reqs, projectId, lim);
    var ts := RecentTestCases(tcs, projectId, lim);
    var items := Collect(rs, ts);
    r := Ok(Timeline(items, lim));
  }

  /** A project with no more requirements and test cases together than the
      limit shows every requirement. */
  lemma SmallHistoryShowsEveryRequirement(
    reqs: map<int, Requirement>, tcs: map<int, TestCase>, projectId: int, limit: int, k: int)
    requires |RequirementsOf(reqs, projectId)| + |TestCasesOf(tcs, projectId)| <= limit
    requires k in reqs && reqs[k].projectId == projectId
    ensures RequirementEntry(reqs[k]) in MergedHistory(reqs, tcs, projectId, limit)
  {
    var rs := RecentRequirements(reqs, projectId, limit);
    var ts := RecentTestCases(tcs, projectId, limit);
    RecentKeepsRequirement(reqs, projectId, limit, k);
    RecentTestCasesLength(tcs, projectId, limit);
    var j :| 0 <= j < |rs| && rs[j] == reqs[k];
    var fetched := Fetched(rs, ts);
    assert fetched[j] == RequirementEntry(reqs[k]);
    ShortTimelineKeepsAll(fetched, limit, j);
  }

  /** With a limit no smaller than the project's requirements, every one
      of them is fetched. */
  lemma RecentKeepsRequirement(reqs: map<int, Requirement>, projectId: int, limit: int, k: int)
    requires |RequirementsOf(reqs, projectId)| <= limit
    requires k in reqs && reqs[k].projectId == projectId
    ensures reqs[k] in RecentRequirements(reqs, projectId, limit)
    ensures |RecentRequirements(reqs, projectId, limit)| == |RequirementsOf(reqs, projectId)|
  {
    var ksR := Sorting.Ascending(RequirementsOf(reqs, projectId));
    var rowsR := RowsAt(reqs, ksR);
    var sortedR := Sorting.SortBy(rowsR, RequirementNewer);
    assert RecentRequirements(reqs, projectId, limit) == sortedR;
    var i :| 0 <= i < |ksR| && ksR[i] == k;
    assert rowsR[i] == reqs[k];
    Sorting.SortByMembers(rowsR, RequirementNewer);
  }

  /** At most the project's test cases are fetched. */
  lemma RecentTestCasesLength(tcs: map<int, TestCase>, projectId: int, limit: int)
    ensures |RecentTestCases(tcs, projectId, limit)| <= |TestCasesOf(tcs, projectId)|
  {
  }

  /** A timeline no longer than its limit keeps entry `j`. */
  lemma ShortTimelineKeepsAll(items: seq<HistoryItemOut>, limit: int, j: int)
    requires |items| <= limit && 0 <= j < |items|
    ensures items[j] in Timeline(items, limit)
  {
    assert items[j] in items;
    Sorting.SortByMembers(items, ItemNewer);
    assert Timeline(items, limit) == Sorting.SortBy(items, ItemNewer);
  }
}
