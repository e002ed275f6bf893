/** The request bodies' declarative constraints: what the validation layer
    accepts before a handler runs.  A refused body is answered 422 and the
    handler never sees it; `detail` names the failing field.  Address
    validation (`EmailStr`) is a parameter. */
module Schemas {
  import opened Common
  import opened Models
  import ProjectSharing

  const Unprocessable: int := 422

  /** Python's `len` between the two bounds, both included. */
  predicate LengthIn(s: string, lo: nat, hi: nat) { lo <= |s| <= hi }

  // ---------------------------------------------------------------------
  // RegisterIn
  // ---------------------------------------------------------------------

  /** A registration body; `name` is `None` when the field is missing. */
  datatype RegisterBody = RegisterBody(
    email: string, password: string, name: Option<string>,
    tel: Option<string>, address: Option<string>, city: Option<string>, country: Option<string>,
    roleId: Option<int>, organizationId: Option<int>)

  /** The body is taken exactly when the address is an email, the password
      has 8 to 128 characters and a name of 2 to 120 characters is given.
      Pydantic lists every failing field in its 422; the model's detail
      names only the first failing one, in the order email, password,
      name. */
  function ValidateRegister(b: RegisterBody, isEmail: string -> bool): (r: Result<RegisterBody>)
    ensures r.Ok? <==> isEmail(b.email) && LengthIn(b.password, 8, 128)
                       && b.name.Some? && LengthIn(b.name.value, 2, 120)
    ensures r.Ok? ==> r.value == b
    ensures r.Err? ==> r.status == Unprocessable
  {
    if !isEmail(b.email) then Err(Unprocessable, "email")
    else if !LengthIn(b.password, 8, 128) then Err(Unprocessable, "password")
    else if b.name.None? || !LengthIn(b.name.value, 2, 120) then Err(Unprocessable, "name")
    else Ok(b)
  }

  /** A 7-character password is refused whatever else the body holds. */
  lemma ShortPasswordRefused(b: RegisterBody, isEmail: string -> bool)
    requires |b.password| < 8
    ensures ValidateRegister(b, isEmail) == (if isEmail(b.email) then Err(Unprocessable, "password")
                                             else Err(Unprocessable, "email"))
  {
  }

  /** A body without a name never reaches the handler. */
  lemma MissingNameRefused(b: RegisterBody, isEmail: string -> bool)
    requires b.name.None?
    ensures ValidateRegister(b, isEmail).Err?
  {
  }

  // ---------------------------------------------------------------------
  // ProjectCreateIn and GroupCreateIn
  // ---------------------------------------------------------------------

  function ValidateProjectName(name: string): (r: Result<string>)
    ensures r.Ok? <==> LengthIn(name, 2, 150)
    ensures r.Ok? ==> r.value == name
  {
    if LengthIn(name, 2, 150) then Ok(name) else Err(Unprocessable, "name")
  }

  function ValidateGroupName(name: string): (r: Result<string>)
    ensures r.Ok? <==> LengthIn(name, 2, 120)
    ensures r.Ok? ==> r.value == name
  {
    if LengthIn(name, 2, 120) then Ok(name) else Err(Unprocessable, "name")
  }

  /** A group name the schema accepts is also a valid project name, not
      the other way round: 121 to 150 characters separate them. */
  lemma GroupNameIsProjectName(name: string)
    ensures ValidateGroupName(name).Ok? ==> ValidateProjectName(name).Ok?
    ensures |name| == 140 ==> ValidateProjectName(name).Ok? && ValidateGroupName(name).Err?
  {
  }

  // ---------------------------------------------------------------------
  // Adding a project member
  // ---------------------------------------------------------------------

  /** `AddProjectMemberIn`: the level is absent (`None`) or one of the two
      literals; absent means "viewer". */
  datatype MemberBody = MemberBody(email: string, level: string)

  function ValidateAddProjectMember(email: string, level: Option<string>, isEmail: string -> bool): (r: Result<MemberBody>)
    ensures r.Ok? <==> isEmail(email) && (level.None? || IsLevel(level.value))
    ensures r.Ok? ==> r.value.email == email && IsLevel(r.value.level)
    ensures r.Ok? && level.None? ==> r.value.level == DefaultAccessLevel
    ensures r.Ok? && level.Some? ==> r.value.level == level.value
  {
    if !isEmail(email) then Err(Unprocessable, "email")
    else if level.None? then Ok(MemberBody(email, "viewer"))
    else if IsLevel(level.value) then Ok(MemberBody(email, level.value))
    else Err(Unprocessable, "access_level")
  }

  /** The first `ProjectMemberAddByEmailIn`, which the later class of the
      same name replaces: a checked address and a default "viewer". */
  function ValidateAddByEmailShadowed(email: string, level: Option<string>, isEmail: string -> bool): (r: Result<MemberBody>)
    ensures r.Ok? <==> isEmail(email)
    ensures r.Ok? ==> r.value == MemberBody(email, if level.Some? then level.value else "viewer")
  {
    if !isEmail(email) then Err(Unprocessable, "email")
    else Ok(MemberBody(email, if level.Some? then level.value else "viewer"))
  }

  /** The `ProjectMemberAddByEmailIn` in force: any string as address, and
      a level that must be present but may be any text. */
  function ValidateAddByEmail(email: string, level: Option<string>): (r: Result<MemberBody>)
    ensures r.Ok? <==> level.Some?
    ensures r.Ok? ==> r.value == MemberBody(email, level.value)
  {
    if level.None? then Err(Unprocessable, "access_level") else Ok(MemberBody(email, level.value))
  }

  /** Where the two definitions part: without a level the one in force
      refuses the body, the replaced one would have defaulted to "viewer";
      a malformed address passes the one in force. */
  lemma RedefinitionChangesValidation(email: string, isEmail: string -> bool)
    requires isEmail(email)
    ensures ValidateAddByEmail(email, None) == Err(Unprocessable, "access_level")
    ensures ValidateAddByEmailShadowed(email, None, isEmail) == Ok(MemberBody(email, "viewer"))
    ensures !isEmail("nobody") ==>
              ValidateAddByEmail("nobody", Some("viewer")).Ok?
              && ValidateAddByEmailShadowed("nobody", Some("viewer"), isEmail).Err?
  {
  }

  /** With any text accepted, the level check falls to the sharing
      handler: "owner" passes the schema and the handler never grants it. */
  lemma LevelCheckFallsToHandler(projects: map<int, Project>, users: map<int, User>, roles: map<int, Role>,
                                 projectId: int, caller: User, email: string)
    ensures ValidateAddByEmail(email, Some("owner")).Ok?
    ensures ProjectSharing.AddMemberGuard(projects, users, roles, projectId, caller, email, "owner").Err?
  {
    LowerOfLower("owner");
    TrimOfTrimmed("owner", PySpace);
    assert !IsLevel(ProjectSharing.NormaliseLevel("owner"));
  }

  /** A level the stricter schema accepts is stored exactly as given. */
  lemma LiteralLevelStoredAsIs(l: string)
    requires IsLevel(l)
    ensures ProjectSharing.NormaliseLevel(l) == l
  {
    LowerOfLower(l);
    TrimOfTrimmed(l, PySpace);
  }

  // ---------------------------------------------------------------------
  // TestExecutionCreateIn
  // ---------------------------------------------------------------------

  predicate IsResult(s: string) {
    s == "Passed" || s == "Failed" || s == "Blocked" || s == "Skipped" || s == "Pending"
  }

  datatype ExecutionBody = ExecutionBody(projectId: int, testCaseId: int, result: string, notes: Option<string>)

  function ValidateExecution(projectId: int, testCaseId: int, result: Option<string>, notes: Option<string>): (r: Result<ExecutionBody>)
    ensures r.Ok? <==> result.None? || IsResult(result.value)
    ensures r.Ok? ==> IsResult(r.value.result) && r.value.projectId == projectId && r.value.testCaseId == testCaseId
    ensures r.Ok? && result.None? ==> r.value.result == "Pending"
    ensures r.Ok? && result.Some? ==> r.value.result == result.value
  {
    if result.None? then Ok(ExecutionBody(projectId, testCaseId, "Pending", notes))
    else if IsResult(result.value) then Ok(ExecutionBody(projectId, testCaseId, result.value, notes))
    else Err(Unprocessable, "result")
  }

  /** Results are case-sensitive literals. */
  lemma LowerCaseResultRefused(projectId: int, testCaseId: int)
    ensures ValidateExecution(projectId, testCaseId, Some("passed"), None).Err?
  {
  }

  // ---------------------------------------------------------------------
  // Fields the handlers read
  // ---------------------------------------------------------------------

  /** The fields `TestCaseCreateIn`, `RequirementCreateIn` and
      `RequirementUpdateIn` declare; the validation layer drops any other
      key of the body. */
  const TestCaseCreateFields: set<string> := {"project_id", "title", "description", "steps", "expected_result"}
  const RequirementCreateFields: set<string> := {"project_id", "text", "test_cases"}
  const RequirementUpdateFields: set<string> := {"text"}

  /** `payload.<name>` on a validated body: a field the schema does not
      declare raises `AttributeError`, which the debug exception handler
      answers with 500. */
  function ReadField(declared: set<string>, name: string): (r: Result<string>)
    ensures r.Ok? <==> name in declared
    ensures r.Ok? ==> r.value == name
    ensures r.Err? ==> r == Err(500, AttributeErrorDetail)
  {
    if name in declared then Ok(name) else Err(500, AttributeErrorDetail)
  }

  /** As written, creating a test case reads `payload.requirement_id`, and
      creating or updating a requirement reads `payload.title`: none of
      them is declared, so every such request that passes its access
      check is answered 500. */
  lemma UndeclaredFieldsFailAsWritten()
    ensures ReadField(TestCaseCreateFields, "requirement_id") == Err(500, AttributeErrorDetail)
    ensures ReadField(RequirementCreateFields, "title") == Err(500, AttributeErrorDetail)
    ensures ReadField(RequirementUpdateFields, "title") == Err(500, AttributeErrorDetail)
  {
  }
}
