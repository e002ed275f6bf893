/** The login page: whether a stored token still looks valid, when the
    form may be sent, what address is sent, and which message a refusal
    shows. */
module LoginPage {
  import opened Common
  import opened Models
  import Json

  const Generic: string := "Invalid email or password."
  const Failed: string := "Login failed."

  /** `isProbablyExpired`: a missing or empty expiry, or one `parse`
      (standing for `Date.parse`) cannot read, is not expired; otherwise
      it is expired from the instant `now` reaches it. */
  function IsProbablyExpired(expiresAt: Option<string>, parse: string -> Option<int>, now: int): (r: bool)
    ensures !Given(expiresAt) ==> !r
    ensures Given(expiresAt) && parse(expiresAt.value).None? ==> !r
    ensures Given(expiresAt) && parse(expiresAt.value).Some? ==> (r <==> parse(expiresAt.value).value <= now)
  {
    if !Given(expiresAt) then false
    else
      match parse(expiresAt.value)
      case None => false
      case Some(t) => t <= now
  }

  /** What the page does on opening, given the stored token and expiry. */
  datatype Opening = GoToProjects | ClearStaleToken | StayHere

  function OnOpen(token: Option<string>, expiresAt: Option<string>, parse: string -> Option<int>, now: int): (a: Opening)
    ensures !Given(token) <==> a == StayHere
    ensures a == ClearStaleToken <==> Given(token) && IsProbablyExpired(expiresAt, parse, now)
  {
    if Given(token) && !IsProbablyExpired(expiresAt, parse, now) then GoToProjects
    else if Given(token) && IsProbablyExpired(expiresAt, parse, now) then ClearStaleToken
    else StayHere
  }

  /** The stored (token, expiry) pair after opening: a stale token is
      removed with its expiry, anything else is kept. */
  function StoredAfterOpen(token: Option<string>, expiresAt: Option<string>, parse: string -> Option<int>, now: int)
    : (s: (Option<string>, Option<string>))
    ensures OnOpen(token, expiresAt, parse, now) == ClearStaleToken ==> s == (None, None)
    ensures OnOpen(token, expiresAt, parse, now) != ClearStaleToken ==> s == (token, expiresAt)
  {
    if OnOpen(token, expiresAt, parse, now) == ClearStaleToken then (None, None) else (token, expiresAt)
  }

  /** An expiry that cannot be read never clears the token: the page
      moves on to the projects. */
  lemma UnreadableExpiryKeepsToken(token: string, expiresAt: string, parse: string -> Option<int>, now: int)
    requires token != "" && parse(expiresAt).None?
    ensures OnOpen(Some(token), Some(expiresAt), parse, now) == GoToProjects
    ensures StoredAfterOpen(Some(token), Some(expiresAt), parse, now) == (Some(token), Some(expiresAt))
  {
  }

  /** `canSubmit`. */
  predicate CanSubmit(email: string, password: string, loading: bool)
    ensures loading ==> !CanSubmit(email, password, loading)
    ensures CanSubmit(email, password, loading) ==> '@' in JsTrim(email) && password != ""
  {
    var e := JsTrim(email);
    JsLength(e) > 3 && '@' in e && JsLength(password) >= 1 && !loading
  }

  /** The address sent: trimmed and lower-cased. */
  function CleanEmail(email: string): (r: string)
    ensures r == Lower(JsTrim(email))
    ensures |r| <= |email|
  {
    Lower(JsTrim(email))
  }

  /** A form that may be sent sends an address with an "@" and at least
      four characters, and a non-empty password. */
  lemma {:induction false} SubmittedEmailShape(email: string, password: string, loading: bool)
    requires CanSubmit(email, password, loading)
    ensures '@' in CleanEmail(email) && |CleanEmail(email)| >= 2 && password != ""
  {
    var e := JsTrim(email);
    var k :| 0 <= k < |e| && e[k] == '@';
    assert CleanEmail(email)[k] == LowerChar('@') == '@';
    assert |e| >= 2 by {
      assert JsLength(e) <= 2 * |e|;
    }
  }

  /** Sending cleans an already clean address to itself. */
  lemma CleanEmailIdempotent(email: string)
    ensures CleanEmail(CleanEmail(email)) == CleanEmail(email)
  {
    var t := JsTrim(email);
    LowerTrimmed(t);
    TrimIdempotent(email, JsSpace);
    LowerIdempotent(t);
  }

  /** Lower-casing does not create or remove white space at the ends. */
  lemma LowerTrimmed(t: string)
    requires t == Trim(t, JsSpace)
    ensures Trim(Lower(t), JsSpace) == Lower(t)
  {
    var l := Lower(t);
    if |t| > 0 {
      assert t[0] == Trim(t, JsSpace)[0];
      assert !JsSpace(t[0]) && !JsSpace(t[|t| - 1]);
      assert !JsSpace(l[0]) && !JsSpace(l[|l| - 1]);
    }
    TrimOfTrimmed(l, JsSpace);
  }

  const Unknown: string := "Something went wrong."

  /** JavaScript's truth value of a decoded JSON value: only `null`,
      `false`, 0 and "" are falsy; an empty array or object is truthy. */
  predicate JsTruthy(j: Json.Json)
    ensures j.JArr? || j.JObj? ==> JsTruthy(j)
    ensures j.JStr? ==> (JsTruthy(j) <==> j.s != "")
    ensures j.JNull? ==> !JsTruthy(j)
  {
    match j
    case JNull => false
    case JBool(b) => b
    case JNum(n) => n != 0
    case JStr(s) => s != ""
    case _ => true
  }

  /** `String(j)`: an array joins its items' strings with commas, `null`
      items giving "", and every object is "[object Object]". */
  function JsString(j: Json.Json): (r: string)
    ensures j.JStr? ==> r == j.s
    ensures j.JObj? ==> r == "[object Object]"
    decreases j
  {
    match j
    case JNull => "null"
    case JBool(b) => if b then "true" else "false"
    case JNum(n) => IntToString(n)
    case JStr(s) => s
    case JArr(items) =>
      Join(seq(|items|, i requires 0 <= i < |items| => if items[i].JNull? then "" else JsString(items[i])), ",")
    case JObj(_) => "[object Object]"
  }

  /** `data?.detail`, where `data` is the decoded body or `None` when it is
      not JSON: the `detail` member of an object, `null` otherwise. */
  function DetailOf(data: Option<Json.Json>): (d: Json.Json)
    ensures (data.None? || !data.value.JObj?) ==> d == Json.JNull
  {
    if data.Some? && data.value.JObj? then Json.Get(data.value.members, "detail") else Json.JNull
  }

  /** The message a refused login shows: the generic one for 401 and 403;
      otherwise the error built from the server's detail, or from a
      fallback when the detail is falsy; an error whose message is empty
      shows the last fallback. */
  function RefusalMessage(status: int, data: Option<Json.Json>): (m: string)
    ensures status == 401 || status == 403 ==> m == Generic
    ensures status != 401 && status != 403 && !JsTruthy(DetailOf(data)) ==> m == Failed
    ensures status != 401 && status != 403 && JsTruthy(DetailOf(data)) ==>
              m == (if JsString(DetailOf(data)) == "" then Unknown else JsString(DetailOf(data)))
    ensures m != ""
  {
    if status == 401 || status == 403 then Generic
    else
      var d := DetailOf(data);
      var msg := if JsTruthy(d) then JsString(d) else Failed;
      if msg == "" then Unknown else msg
  }

  /** A non-empty text detail is shown as sent. */
  lemma TextDetailShown(status: int, members: seq<(string, Json.Json)>, detail: string)
    requires status != 401 && status != 403 && detail != ""
    requires Json.Get(members, "detail") == Json.JStr(detail)
    ensures RefusalMessage(status, Some(Json.JObj(members))) == detail
  {
  }

  /** A validation refusal, whose detail is a list of error objects, shows
      "[object Object]" instead of the error. */
  lemma ValidationErrorUnreadable(error: seq<(string, Json.Json)>)
    ensures RefusalMessage(422, Some(Json.JObj([("detail", Json.JArr([Json.JObj(error)]))]))) == "[object Object]"
  {
    var items := [Json.JObj(error)];
    assert seq(|items|, i requires 0 <= i < |items| => if items[i].JNull? then "" else JsString(items[i])) == ["[object Object]"];
  }

  /** An empty list as detail is truthy but prints as "", so the last
      fallback shows. */
  lemma EmptyListDetailShowsFallback(status: int)
    requires status != 401 && status != 403
    ensures RefusalMessage(status, Some(Json.JObj([("detail", Json.JArr([]))]))) == Unknown
  {
  }

  /** An unknown address and a wrong password look the same on the page,
      whatever detail the server sends. */
  lemma NoAccountLeak(d1: Option<Json.Json>, d2: Option<Json.Json>)
    ensures RefusalMessage(401, d1) == RefusalMessage(401, d2) == Generic
  {
  }
}
