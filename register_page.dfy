/** The registration page: its address, password and organisation-id
    checks, the order in which a refused form reports them, and the body
    it sends. */
module RegisterPage {
  import opened Common
  import opened Models
  import Schemas
  import LoginPage

  // ---------------------------------------------------------------------
  // validateEmail: /^[^\s@]+@[^\s@]+\.[^\s@]+$/
  // ---------------------------------------------------------------------

  /** A character of `[^\s@]`. */
  predicate Plain(c: char) { !JsSpace(c) && c != '@' }

  /** The regular expression matches with the "@" at `i` and the "." at
      `j`: three non-empty runs of plain characters around them. */
  predicate MatchesAt(e: string, i: int, j: int) {
    && 0 < i && i + 1 < j && j + 1 < |e|
    && e[i] == '@' && e[j] == '.'
    && (forall k :: 0 <= k < |e| && k != i ==> Plain(e[k]))
  }

  predicate ValidateEmail(e: string)
    ensures ValidateEmail(e) ==> '@' in e && 5 <= |e|
  {
    exists i, j :: 0 <= i < |e| && 0 <= j < |e| && MatchesAt(e, i, j)
  }

  /** What a valid address looks like: one "@", with a non-empty part
      before it, no white space anywhere, and a "." after the "@" that is
      neither the domain's first nor its last character. */
  lemma EmailShape(e: string)
    requires ValidateEmail(e)
    ensures exists i :: 0 < i < |e| - 1 && e[i] == '@'
                        && (forall k :: 0 <= k < |e| && k != i ==> e[k] != '@')
                        && (forall k :: 0 <= k < |e| ==> !JsSpace(e[k]))
                        && (exists j :: i + 1 < j < |e| - 1 && e[j] == '.')
  {
    var i, j :| 0 <= i < |e| && 0 <= j < |e| && MatchesAt(e, i, j);
    assert forall k :: 0 <= k < |e| && k != i ==> e[k] != '@' && !JsSpace(e[k]);
    assert !JsSpace(e[i]);
  }

  /** The converse: such an address matches. */
  lemma EmailOfShape(e: string, i: int, j: int)
    requires 0 < i && i + 1 < j && j + 1 < |e| && e[i] == '@' && e[j] == '.'
    requires forall k :: 0 <= k < |e| && k != i ==> e[k] != '@'
    requires forall k :: 0 <= k < |e| ==> !JsSpace(e[k])
    ensures ValidateEmail(e)
  {
    assert MatchesAt(e, i, j);
  }

  /** Two "@" are never accepted. */
  lemma TwoAtsRefused(e: string, a: int, b: int)
    requires 0 <= a < b < |e| && e[a] == '@' && e[b] == '@'
    ensures !ValidateEmail(e)
  {
    forall i, j | 0 <= i < |e| && 0 <= j < |e| ensures !MatchesAt(e, i, j) {
      if a != i {
        assert !Plain(e[a]);
      } else {
        assert !Plain(e[b]);
      }
    }
  }

  // ---------------------------------------------------------------------
  // passwordMeetsCriteria: /^(?=.*[A-Za-z])(?=.*\d).{12,}$/
  // ---------------------------------------------------------------------

  /** The characters `.` does not match. */
  predicate LineTerminator(c: char) {
    c == '\n' || c == '\r' || c == '\U{2028}' || c == '\U{2029}'
  }

  predicate AsciiLetter(c: char) { 'A' <= c <= 'Z' || 'a' <= c <= 'z' }

  predicate PasswordMeetsCriteria(pw: string)
    ensures |pw| < 6 ==> !PasswordMeetsCriteria(pw)
    ensures PasswordMeetsCriteria(pw) ==> '\n' !in pw && '\r' !in pw
  {
    && JsLength(pw) >= 12
    && (forall k :: 0 <= k < |pw| ==> !LineTerminator(pw[k]))
    && (exists k :: 0 <= k < |pw| && AsciiLetter(pw[k]))
    && (exists k :: 0 <= k < |pw| && IsDigit(pw[k]))
  }

  /** A password of the Basic Multilingual Plane that the page accepts is
      long enough for the server's lower bound. */
  lemma AcceptedPasswordMeetsServerMinimum(pw: string)
    requires PasswordMeetsCriteria(pw)
    requires forall k :: 0 <= k < |pw| ==> pw[k] as int <= 0xFFFF
    ensures 8 <= |pw|
  {
  }

  /** The page sets no upper bound: a password of 129 characters passes
      the page and is refused by the server's schema. */
  lemma LongPasswordPassesPageOnly(pw: string, b: Schemas.RegisterBody, isEmail: string -> bool)
    requires |pw| == 129 && pw[0] == 'a' && pw[1] == '1'
    requires forall k :: 0 <= k < |pw| ==> pw[k] as int <= 0x7F && !LineTerminator(pw[k])
    requires b.password == pw
    ensures PasswordMeetsCriteria(pw)
    ensures Schemas.ValidateRegister(b, isEmail).Err?
  {
    assert AsciiLetter(pw[0]) && IsDigit(pw[1]);
  }

  // ---------------------------------------------------------------------
  // sanitizeText and isSafePositiveIntString
  // ---------------------------------------------------------------------

  /** `(value ?? "").toString().trim()`. */
  function SanitizeText(value: Option<string>): (r: string)
    ensures value.None? ==> r == ""
    ensures value.Some? ==> r == JsTrim(value.value)
  {
    if value.None? then "" else JsTrim(value.value)
  }

  lemma SanitizeIdempotent(value: Option<string>)
    ensures SanitizeText(Some(SanitizeText(value))) == SanitizeText(value)
  {
    if value.Some? {
      TrimIdempotent(value.value, JsSpace);
    }
  }

  /** `/^[1-9]\d*$/` on the text, with "" and a missing value accepted. */
  predicate IsSafePositiveIntString(v: Option<string>)
    ensures v.None? || v == Some("") ==> IsSafePositiveIntString(v)
    ensures v.Some? && |v.value| > 0 && v.value[0] == '0' ==> !IsSafePositiveIntString(v)
    ensures v.Some? && '-' in v.value ==> !IsSafePositiveIntString(v)
  {
    v.None? || v.value == ""
    || (IsDigit(v.value[0]) && v.value[0] != '0' && forall k :: 0 <= k < |v.value| ==> IsDigit(v.value[k]))
  }

  /** An accepted non-empty value is the decimal text of a positive
      number. */
  lemma SafeIntIsPositive(v: string)
    requires v != "" && IsSafePositiveIntString(Some(v))
    ensures IsNumber(v) && DigitsValue(v) > 0
  {
    LeadingDigitPositive(v);
  }

  predicate IsNumber(v: string) { forall k :: 0 <= k < |v| ==> IsDigit(v[k]) }

  lemma {:induction false} LeadingDigitPositive(v: string)
    requires v != "" && IsNumber(v) && v[0] != '0'
    ensures DigitsValue(v) > 0
    decreases |v|
  {
    if |v| > 1 {
      assert IsNumber(v[..|v| - 1]) && v[..|v| - 1][0] == v[0];
      LeadingDigitPositive(v[..|v| - 1]);
    }
  }

  /** Canonical decimal text is the text of its value. */
  lemma {:induction false} DigitsRoundTrip(v: string)
    requires v != "" && IsNumber(v) && v[0] != '0'
    ensures NatToString(DigitsValue(v)) == v
    decreases |v|
  {
    var d := v[|v| - 1] as int - '0' as int;
    if |v| == 1 {
      assert DigitsValue(v) == d;
      assert NatToString(d) == [DigitChar(d)];
      assert DigitChar(d) == v[0];
    } else {
      var w := v[..|v| - 1];
      assert IsNumber(w) && w[0] == v[0];
      DigitsRoundTrip(w);
      LeadingDigitPositive(w);
      var n := DigitsValue(v);
      assert n == DigitsValue(w) * 10 + d;
      assert n / 10 == DigitsValue(w) && n % 10 == d;
      assert NatToString(n) == NatToString(DigitsValue(w)) + [DigitChar(d)];
      assert DigitChar(d) == v[|v| - 1];
      assert v == w + [v[|v| - 1]];
    }
  }

  /** Only canonical decimal text is accepted: the text of every positive
      number, and nothing with a leading zero. */
  lemma CanonicalIntAccepted(n: nat)
    requires n > 0
    ensures IsSafePositiveIntString(Some(NatToString(n)))
    ensures !IsSafePositiveIntString(Some("0" + NatToString(n)))
  {
  }

  // ---------------------------------------------------------------------
  // The form
  // ---------------------------------------------------------------------

  datatype Form = Form(
    email: string, password: string, confirmPassword: string,
    name: string, tel: string, address: string, city: string, country: string,
    organizationId: string)

  predicate CanSubmit(f: Form, loading: bool)
    ensures CanSubmit(f, loading) ==> !loading && f.password == f.confirmPassword
    ensures CanSubmit(f, loading) ==> '@' in SanitizeText(Some(f.email)) && 6 <= |f.password|
  {
    && !loading
    && ValidateEmail(SanitizeText(Some(f.email)))
    && PasswordMeetsCriteria(f.password)
    && f.password == f.confirmPassword
    && IsSafePositiveIntString(Some(f.organizationId))
  }

  const BadEmail: string := "Please enter a valid email address."
  const BadPassword: string := "Password must be at least 12 characters and include letters and numbers."
  const NoMatch: string := "Passwords do not match."
  const BadOrganization: string := "Organization ID must be a positive integer (or left blank)."

  /** The message of the first failing check, in the order address,
      password, confirmation, organisation id; `None` when all pass. */
  function SubmitError(f: Form): (r: Option<string>)
    ensures r.None? <==> CanSubmit(f, false)
    ensures !ValidateEmail(SanitizeText(Some(f.email))) ==> r == Some(BadEmail)
    ensures ValidateEmail(SanitizeText(Some(f.email))) && !PasswordMeetsCriteria(f.password) ==> r == Some(BadPassword)
    ensures (ValidateEmail(SanitizeText(Some(f.email))) && PasswordMeetsCriteria(f.password)
             && f.password != f.confirmPassword) ==> r == Some(NoMatch)
  {
    if !ValidateEmail(SanitizeText(Some(f.email))) then Some(BadEmail)
    else if !PasswordMeetsCriteria(f.password) then Some(BadPassword)
    else if f.password != f.confirmPassword then Some(NoMatch)
    else if !IsSafePositiveIntString(Some(f.organizationId)) then Some(BadOrganization)
    else None
  }

  /** A form with several faults reports the address first. */
  lemma AddressReportedFirst(f: Form)
    requires !ValidateEmail(SanitizeText(Some(f.email))) && f.password != f.confirmPassword
    ensures SubmitError(f) == Some(BadEmail)
  {
  }

  /** `x || null`: a blank field is sent as null. */
  function OrNull(s: string): (r: Option<string>)
    ensures r.None? <==> s == ""
    ensures r.Some? ==> r.value == s
  {
    if s == "" then None else Some(s)
  }

  /** The fixed role of a self-registered user. */
  const TesterRole: int := 2

  /** `organizationId ? Number(organizationId) : null` on accepted text. */
  function OrganizationId(v: string): (r: Option<int>)
    requires IsSafePositiveIntString(Some(v))
    ensures r.None? <==> v == ""
    ensures r.Some? ==> r.value > 0 && NatToString(r.value) == v
  {
    if v == "" then None
    else
      SafeIntIsPositive(v);
      DigitsRoundTrip(v);
      Some(DigitsValue(v))
  }

  /** The body sent. */
  function Payload(f: Form): (b: Schemas.RegisterBody)
    requires IsSafePositiveIntString(Some(f.organizationId))
    ensures b.email == SanitizeText(Some(f.email))
    ensures b.password == f.password
    ensures b.roleId == Some(TesterRole)
    ensures b.name.None? <==> SanitizeText(Some(f.name)) == ""
    ensures b.organizationId.None? <==> f.organizationId == ""
    ensures b.organizationId.Some? ==> b.organizationId.value > 0
                                       && NatToString(b.organizationId.value) == f.organizationId
  {
    Schemas.RegisterBody(SanitizeText(Some(f.email)), f.password, OrNull(SanitizeText(Some(f.name))),
                         OrNull(SanitizeText(Some(f.tel))), OrNull(SanitizeText(Some(f.address))),
                         OrNull(SanitizeText(Some(f.city))), OrNull(SanitizeText(Some(f.country))),
                         Some(TesterRole), OrganizationId(f.organizationId))
  }

  /** A blank name passes the page and is refused by the server, where the
      name is required. */
  lemma BlankNameRefusedByServer(f: Form, isEmail: string -> bool)
    requires IsSafePositiveIntString(Some(f.organizationId)) && SanitizeText(Some(f.name)) == ""
    ensures Schemas.ValidateRegister(Payload(f), isEmail).Err?
  {
  }

  /** The password is sent exactly as typed, surrounding spaces included. */
  lemma PasswordNotTrimmed(f: Form)
    requires IsSafePositiveIntString(Some(f.organizationId))
    ensures Payload(f).password == f.password
  {
  }

  // ---------------------------------------------------------------------
  // The address registered and the address logged in with
  // ---------------------------------------------------------------------

  /** As written, the page registers the address trimmed but keeps its
      case, while the login page lower-cases it and the server compares
      addresses exactly: a user who registers as "Anna@x.se" and types the
      same address at login is not found. */
  lemma CapitalisedAddressNotFoundAtLogin(f: Form, u: User)
    requires f.email == "Anna@x.se" && IsSafePositiveIntString(Some(f.organizationId))
    requires u.email == Payload(f).email
    ensures Payload(f).email == "Anna@x.se"
    ensures LoginPage.CleanEmail(f.email)[0] == 'a' && LoginPage.CleanEmail(f.email) != Payload(f).email
    ensures FindUserByEmail(map[u.id := u], LoginPage.CleanEmail(f.email)).None?
  {
    AnnaIsTrimmed();
    var sent := LoginPage.CleanEmail(f.email);
    LoginLowerCasesFirst(f.email);
    NotStored(u, sent);
  }

  lemma AnnaIsTrimmed()
    ensures JsTrim("Anna@x.se") == "Anna@x.se"
  {
    TrimOfTrimmed("Anna@x.se", JsSpace);
  }

  lemma LoginLowerCasesFirst(e: string)
    requires e == "Anna@x.se"
    ensures |LoginPage.CleanEmail(e)| > 0 && LoginPage.CleanEmail(e)[0] == 'a'
  {
    AnnaIsTrimmed();
    assert Lower(e)[0] == LowerChar('A');
  }

  lemma NotStored(u: User, sent: string)
    requires |u.email| > 0 && |sent| > 0 && u.email[0] == 'A' && sent[0] == 'a'
    ensures FindUserByEmail(map[u.id := u], sent).None?
  {
    assert !HasEmail(map[u.id := u], sent);
  }

  /** The body with the address also lower-cased, as the login page
      sends it. */
  function CorrectedPayload(f: Form): (b: Schemas.RegisterBody)
    requires IsSafePositiveIntString(Some(f.organizationId))
    ensures b == Payload(f).(email := Lower(SanitizeText(Some(f.email))))
  {
    Payload(f).(email := Lower(SanitizeText(Some(f.email))))
  }

  /** With the corrected body, typing the registered address at login,
      in any ASCII case and with any surrounding white space, sends
      exactly the stored address. */
  lemma LoginFindsCorrectedAddress(f: Form, typed: string)
    requires IsSafePositiveIntString(Some(f.organizationId))
    requires Lower(JsTrim(typed)) == Lower(JsTrim(f.email))
    ensures LoginPage.CleanEmail(typed) == CorrectedPayload(f).email
  {
  }
}
