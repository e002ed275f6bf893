/** The project page: the badge class of a history entry's endpoint, and
    the choice of the project named by the route. */
module SelectedProjectPage {
  import opened Common
  import Projects

  const Base: string := "inline-flex items-center rounded-full px-2 py-0.5 text-xs font-semibold border"
  const Blue: string := " bg-blue-50 text-blue-700 border-blue-200"
  const Amber: string := " bg-amber-50 text-amber-700 border-amber-200"
  const Purple: string := " bg-purple-50 text-purple-700 border-purple-200"
  const Green: string := " bg-green-50 text-green-700 border-green-200"
  const Gray: string := " bg-gray-50 text-gray-700 border-gray-200"

  /** The colour part of the badge for an already lower-cased endpoint. */
  function Colour(key: string): (c: string)
    ensures key == "testcases" <==> c == Blue
    ensures key == "risk" <==> c == Amber
    ensures key == "regression" <==> c == Purple
    ensures key == "summary" <==> c == Green
    ensures key !in {"testcases", "risk", "regression", "summary"} <==> c == Gray
  {
    if key == "testcases" then Blue
    else if key == "risk" then Amber
    else if key == "regression" then Purple
    else if key == "summary" then Green
    else Gray
  }

  /** `endpointBadge`: a missing endpoint counts as "", and the match
      ignores ASCII case. */
  function EndpointBadge(endpoint: Option<string>): (r: string)
    ensures |r| > |Base| && r[..|Base|] == Base
    ensures r == Base + Colour(Lower(if endpoint.Some? then endpoint.value else ""))
  {
    var key := Lower(if endpoint.Some? then endpoint.value else "");
    var r := Base + Colour(key);
    assert r[..|Base|] == Base;
    r
  }

  /** Spellings that differ only in ASCII case get the same badge. */
  lemma BadgeIgnoresCase(a: string, b: string)
    requires Lower(a) == Lower(b)
    ensures EndpointBadge(Some(a)) == EndpointBadge(Some(b))
  {
  }

  /** "RISK" is shown like "risk", and a missing endpoint like an unknown
      one. */
  lemma BadgeExamples()
    ensures EndpointBadge(Some("RISK")) == Base + Amber
    ensures EndpointBadge(None) == Base + Gray
    ensures EndpointBadge(Some("other")) == Base + Gray
  {
    assert Lower("RISK") == "risk";
    assert Lower("") == "";
    assert Lower("other") != "testcases";
  }

  /** `items.find(p => String(p.id) === String(projectId))`: the first
      project whose decimal id is the route's text; `None` is the page's
      "Project not found" error. */
  function FindProject(items: seq<Projects.ProjectOut>, routeId: string): (r: Option<Projects.ProjectOut>)
    ensures r.None? <==> forall i :: 0 <= i < |items| ==> IntToString(items[i].id) != routeId
    ensures r.Some? ==> exists i :: 0 <= i < |items| && items[i] == r.value
                                  && IntToString(r.value.id) == routeId
                                  && forall j :: 0 <= j < i ==> IntToString(items[j].id) != routeId
    decreases |items|
  {
    if |items| == 0 then None
    else if IntToString(items[0].id) == routeId then Some(items[0])
    else
      var r := FindProject(items[1..], routeId);
      if r.Some? then
        ghost var i :| 0 <= i < |items[1..]| && items[1..][i] == r.value
                       && IntToString(r.value.id) == routeId
                       && forall j :: 0 <= j < i ==> IntToString(items[1..][j].id) != routeId;
        assert items[i + 1] == r.value;
        r
      else r
  }

  /** The route "k" selects the first project with id k. */
  lemma {:induction false} RouteSelectsId(items: seq<Projects.ProjectOut>, k: int)
    requires exists i :: 0 <= i < |items| && items[i].id == k
    ensures FindProject(items, IntToString(k)).Some?
    ensures FindProject(items, IntToString(k)).value.id == k
  {
    var i :| 0 <= i < |items| && items[i].id == k;
    var r := FindProject(items, IntToString(k));
    var j :| 0 <= j < |items| && items[j] == r.value && IntToString(r.value.id) == IntToString(k)
             && forall m :: 0 <= m < j ==> IntToString(items[m].id) != IntToString(k);
    IntToStringInjective(r.value.id, k);
  }

  /** A route with a leading zero names no project. */
  lemma LeadingZeroFindsNothing(items: seq<Projects.ProjectOut>, rest: string)
    requires rest != ""
    ensures FindProject(items, "0" + rest).None?
  {
    forall i | 0 <= i < |items| ensures IntToString(items[i].id) != "0" + rest {
      LeadingZeroNotDecimal(items[i].id, rest);
    }
  }

  lemma LeadingZeroNotDecimal(k: int, rest: string)
    requires rest != ""
    ensures IntToString(k) != "0" + rest
  {
    if k < 0 {
      assert IntToString(k)[0] == '-';
    } else if k == 0 {
      assert IntToString(k) == "0";
    } else {
      assert IntToString(k)[0] != '0';
    }
  }
}
