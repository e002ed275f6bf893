/** The test-case management page: filling the form from a listed test
    case, turning the form's text areas back into lists on submit, choosing
    between update and create, and the title check that keeps an import
    from creating a second test case with the same title. */
module ManageTestCasesPage {
  import opened Common
  import Json
  import LoginPage

  /** The `id` of a test case as the page receives it: a JSON number, a
      string such as "TC-001" from a parsed log, `null`, or absent. */
  datatype IdValue = IdNum(n: int) | IdText(s: string) | IdNull | IdMissing

  /** A test case as listed by the server or parsed from a log. */
  datatype ListedCase = ListedCase(
    id: IdValue, title: Option<string>, description: Option<string>,
    steps: Option<seq<string>>, preconditions: Option<seq<string>>, expectedResult: Option<string>)

  datatype Form = Form(title: string, description: string, steps: string, preconditions: string, expectedResult: string)

  datatype EditState = EditState(editingId: Option<int>, form: Form)

  function OrEmpty(x: Option<string>): (r: string)
    ensures x.Some? ==> r == x.value
    ensures x.None? ==> r == ""
  {
    if x.Some? then x.value else ""
  }

  function JoinedLines(xs: Option<seq<string>>): (r: string)
    ensures xs.None? ==> r == ""
  {
    if xs.Some? then Join(xs.value, "\n") else ""
  }

  /** `Number(tc.id)` when that is an integer, else `None`.  `Number(null)`
      is 0; `Number(undefined)` is NaN.  For a string, `integral` says which
      integer `Number` reads from it, if any. */
  function NumericId(id: IdValue, integral: string -> Option<int>): (r: Option<int>)
    ensures id.IdNum? ==> r == Some(id.n)
    ensures id.IdNull? ==> r == Some(0)
    ensures id.IdMissing? ==> r.None?
    ensures id.IdText? ==> r == integral(id.s)
  {
    match id
    case IdNum(n) => Some(n)
    case IdText(s) => integral(s)
    case IdNull => Some(0)
    case IdMissing => None
  }

  /** `populateForEdit`: the editing id only for an integral id, and the form
      filled with the case's fields, lists joined one item per line. */
  function PopulateForEdit(tc: ListedCase, integral: string -> Option<int>): (r: EditState)
    ensures r.editingId == NumericId(tc.id, integral)
    ensures r.form.title == OrEmpty(tc.title) && r.form.description == OrEmpty(tc.description)
    ensures r.form.expectedResult == OrEmpty(tc.expectedResult)
    ensures r.form.steps == JoinedLines(tc.steps) && r.form.preconditions == JoinedLines(tc.preconditions)
  {
    EditState(NumericId(tc.id, integral),
              Form(OrEmpty(tc.title), OrEmpty(tc.description), JoinedLines(tc.steps),
                   JoinedLines(tc.preconditions), OrEmpty(tc.expectedResult)))
  }

  /** One piece of `text.split(/\r?\n/)`: a carriage return just before a
      line feed belongs to the separator. */
  function DropCarriageReturn(p: string): (r: string)
    ensures |p| > 0 && p[|p| - 1] == '\r' ==> r == p[..|p| - 1]
    ensures !(|p| > 0 && p[|p| - 1] == '\r') ==> r == p
  {
    if |p| > 0 && p[|p| - 1] == '\r' then p[..|p| - 1] else p
  }

  function RegexPieces(text: string): (r: seq<string>)
    ensures var lf := Split(text, '\n');
            |r| == |lf| && r[|r| - 1] == lf[|lf| - 1]
            && forall i :: 0 <= i < |r| - 1 ==> r[i] == DropCarriageReturn(lf[i])
  {
    var lf := Split(text, '\n');
    seq(|lf|, i requires 0 <= i < |lf| => if i < |lf| - 1 then DropCarriageReturn(lf[i]) else lf[i])
  }

  function Trimmed(xs: seq<string>): (r: seq<string>)
    ensures |r| == |xs| && forall i :: 0 <= i < |xs| ==> r[i] == JsTrim(xs[i])
  {
    seq(|xs|, i requires 0 <= i < |xs| => JsTrim(xs[i]))
  }

  /** `text.split(/\r?\n/).map(s => s.trim()).filter(Boolean)`. */
  function Lines(text: string): seq<string> {
    NonEmptyOnly(Trimmed(RegexPieces(text)))
  }

  // ---------------------------------------------------------------------
  // What splitting gives back
  // ---------------------------------------------------------------------

  lemma NoCharAfterTrim(s: string, c: char, ws: char -> bool)
    requires c !in s
    ensures c !in Trim(s, ws)
  {
    var e := TrimEnd(s, ws);
    assert forall x :: x in e ==> x in s;
    var t := TrimStart(e, ws);
    assert forall x :: x in t ==> x in e;
  }

  lemma TrimDropsCarriageReturn(p: string)
    ensures JsTrim(DropCarriageReturn(p)) == JsTrim(p)
  {
    if |p| > 0 && p[|p| - 1] == '\r' {
      TrimDropsTrailingSpace(p, JsSpace);
    }
  }

  /** The carriage return the pattern swallows would be trimmed anyway,
      so splitting on "\n" alone gives the same lines. */
  lemma {:induction false} LinesIgnoreCarriageReturns(text: string)
    ensures Lines(text) == NonEmptyOnly(Trimmed(Split(text, '\n')))
  {
    PiecesTrimAlike(Split(text, '\n'), RegexPieces(text));
  }

  /** Pieces that differ only by a carriage return before the separator
      trim alike. */
  lemma PiecesTrimAlike(lf: seq<string>, rp: seq<string>)
    requires |rp| == |lf| >= 1 && rp[|rp| - 1] == lf[|lf| - 1]
    requires forall i :: 0 <= i < |rp| - 1 ==> rp[i] == DropCarriageReturn(lf[i])
    ensures Trimmed(rp) == Trimmed(lf)
  {
    forall i | 0 <= i < |lf| ensures Trimmed(rp)[i] == Trimmed(lf)[i] {
      PieceTrimsAlike(lf, rp, i);
    }
  }

  lemma PieceTrimsAlike(lf: seq<string>, rp: seq<string>, i: int)
    requires |rp| == |lf| >= 1 && rp[|rp| - 1] == lf[|lf| - 1]
    requires forall i :: 0 <= i < |rp| - 1 ==> rp[i] == DropCarriageReturn(lf[i])
    requires 0 <= i < |lf|
    ensures Trimmed(rp)[i] == Trimmed(lf)[i]
  {
    if i < |lf| - 1 {
      TrimDropsCarriageReturn(lf[i]);
    }
  }

  /** Trimming pieces without line feeds gives trimmed pieces without line
      feeds. */
  lemma TrimmedWellFormed(xs: seq<string>)
    requires forall i :: 0 <= i < |xs| ==> '\n' !in xs[i]
    ensures forall s :: s in Trimmed(xs) ==> '\n' !in s && JsTrim(s) == s
  {
    forall i | 0 <= i < |xs| ensures '\n' !in Trimmed(xs)[i] && JsTrim(Trimmed(xs)[i]) == Trimmed(xs)[i] {
      NoCharAfterTrim(xs[i], '\n', JsSpace);
      TrimIdempotent(xs[i], JsSpace);
    }
  }

  /** Every line is non-empty, trimmed and holds no line feed. */
  lemma LinesWellFormed(text: string)
    ensures forall s :: s in Lines(text) ==> s != "" && '\n' !in s && JsTrim(s) == s
  {
    LinesIgnoreCarriageReturns(text);
    TrimmedWellFormed(Split(text, '\n'));
  }

  /** Joining items one per line and splitting the text again gives the
      trimmed, non-empty items, when no item holds a line feed. */
  lemma {:induction false} LinesOfJoined(xs: seq<string>)
    requires forall i :: 0 <= i < |xs| ==> '\n' !in xs[i]
    ensures Lines(Join(xs, "\n")) == NonEmptyOnly(Trimmed(xs))
  {
    LinesIgnoreCarriageReturns(Join(xs, "\n"));
    if xs == [] {
      assert Split("", '\n') == [""];
      assert Trimmed([""]) == [""];
    } else {
      SplitJoin(xs, '\n');
    }
  }

  /** Submitting the text again changes nothing: the lines are already in
      the form the split produces. */
  lemma LinesIdempotent(text: string)
    ensures Lines(Join(Lines(text), "\n")) == Lines(text)
  {
    var ys := Lines(text);
    LinesWellFormed(text);
    assert forall i :: 0 <= i < |ys| ==> ys[i] in ys;
    LinesOfJoined(ys);
    assert Trimmed(ys) == ys;
    NonEmptyOnlyOfNonEmpty(ys);
  }

  // ---------------------------------------------------------------------
  // Submitting the form
  // ---------------------------------------------------------------------

  /** The body the page sends for a create or an update. */
  datatype Payload = Payload(
    projectId: int, title: Option<string>, description: Option<string>,
    steps: seq<string>, preconditions: seq<string>, expectedResult: string)

  function SubmitPayload(projectId: int, f: Form): (p: Payload)
    ensures p.title == Some(f.title) && p.description == Some(f.description)
    ensures p.expectedResult == f.expectedResult && p.projectId == projectId
    ensures p.steps == Lines(f.steps) && p.preconditions == Lines(f.preconditions)
  {
    Payload(projectId, Some(f.title), Some(f.description), Lines(f.steps), Lines(f.preconditions), f.expectedResult)
  }

  datatype Action = UpdateCase(id: int) | CreateCase

  /** `if (editingId)`: 0 and null are falsy and create. */
  function Dispatch(editingId: Option<int>): (a: Action)
    ensures a.UpdateCase? <==> editingId.Some? && editingId.value != 0
    ensures a.UpdateCase? ==> a.id == editingId.value
  {
    if editingId.Some? && editingId.value != 0 then UpdateCase(editingId.value) else CreateCase
  }

  // ---------------------------------------------------------------------
  // Clearing the form after a submit
  // ---------------------------------------------------------------------

  /** The form object as the page holds it: a key the last `setForm` left
      out reads as `undefined`, here `None`. */
  datatype HeldForm = HeldForm(
    title: string, description: string, steps: string, preconditions: Option<string>, expectedResult: string)

  /** The reset after a successful submit as written: the object set has no
      `preconditions` key. */
  function ResetAsWritten(): (h: HeldForm)
    ensures h.title == "" && h.description == "" && h.steps == "" && h.expectedResult == ""
    ensures h.preconditions.None?
  {
    HeldForm("", "", "", None, "")
  }

  /** The reset with every field of the form cleared. */
  function Reset(): (h: HeldForm)
    ensures h.title == "" && h.description == "" && h.steps == "" && h.expectedResult == ""
    ensures h.preconditions == Some("")
  {
    HeldForm("", "", "", Some(""), "")
  }

  /** `onSubmit` on the held form: `form.preconditions.split` on `undefined`
      throws, the handler shows the error and nothing is sent (`None`). */
  function Submit(projectId: int, h: HeldForm): (r: Option<Payload>)
    ensures r.None? <==> h.preconditions.None?
    ensures r.Some? ==> r.value == SubmitPayload(projectId, Form(h.title, h.description, h.steps, h.preconditions.value, h.expectedResult))
  {
    if h.preconditions.None? then None
    else Some(SubmitPayload(projectId, Form(h.title, h.description, h.steps, h.preconditions.value, h.expectedResult)))
  }

  /** As written, once a case is saved, the next one typed into the other
      fields is never sent: the submit throws until the preconditions box
      is edited. */
  lemma NextSubmitFailsAsWritten(projectId: int, t: string, d: string, st: string, e: string)
    ensures Submit(projectId, ResetAsWritten().(title := t, description := d, steps := st, expectedResult := e)).None?
  {
  }

  /** With the whole form cleared, the next case is sent with no
      preconditions. */
  lemma NextSubmitSendsAfterReset(projectId: int, t: string, d: string, st: string, e: string)
    ensures var r := Submit(projectId, Reset().(title := t, description := d, steps := st, expectedResult := e));
            r.Some? && r.value.title == Some(t) && r.value.steps == Lines(st) && r.value.preconditions == []
  {
    LinesOfJoined([]);
    assert Trimmed([]) == [];
  }

  /** Editing a listed case and submitting at once sends its steps and
      preconditions back trimmed and without empties, and updates it exactly
      when its id is a non-zero integer. */
  lemma EditRoundTrip(projectId: int, tc: ListedCase, integral: string -> Option<int>)
    requires tc.steps.Some? && forall i :: 0 <= i < |tc.steps.value| ==> '\n' !in tc.steps.value[i]
    requires tc.preconditions.Some? && forall i :: 0 <= i < |tc.preconditions.value| ==> '\n' !in tc.preconditions.value[i]
    ensures var e := PopulateForEdit(tc, integral);
            var p := SubmitPayload(projectId, e.form);
            p.steps == NonEmptyOnly(Trimmed(tc.steps.value))
            && p.preconditions == NonEmptyOnly(Trimmed(tc.preconditions.value))
            && (Dispatch(e.editingId).UpdateCase? <==> NumericId(tc.id, integral).Some? && NumericId(tc.id, integral) != Some(0))
  {
    LinesOfJoined(tc.steps.value);
    LinesOfJoined(tc.preconditions.value);
  }

  /** A case whose id is `null` opens the form in create mode, although
      `Number(null)` is an integer. */
  lemma NullIdCreates(tc: ListedCase, integral: string -> Option<int>)
    requires tc.id == IdNull
    ensures PopulateForEdit(tc, integral).editingId == Some(0)
    ensures Dispatch(PopulateForEdit(tc, integral).editingId) == CreateCase
  {
  }

  /** A case without an integral id is created, not updated. */
  lemma NonNumericIdCreates(tc: ListedCase, integral: string -> Option<int>)
    requires tc.id.IdMissing? || (tc.id.IdText? && integral(tc.id.s).None?)
    ensures Dispatch(PopulateForEdit(tc, integral).editingId) == CreateCase
  {
  }

  // ---------------------------------------------------------------------
  // Importing a test case from a log
  // ---------------------------------------------------------------------

  /** A JSON value that is not an array. */
  type Scalar = j: Json.Json | !j.JArr? witness Json.JNull

  /** A list field of an imported case: an array, any other JSON value, or
      absent. */
  datatype Field = ListField(items: seq<string>) | ScalarField(v: Scalar) | NoField

  datatype ImportCase = ImportCase(
    title: Option<string>, description: Option<string>,
    steps: Field, preconditions: Field, expectedResult: Option<string>)

  /** An array is kept; any other truthy value is turned into text with
      `String` and split like a text area; a falsy value (`0`, `false`,
      `null`, "") or a missing field gives []. */
  function ImportedList(f: Field): (r: seq<string>)
    ensures f.ListField? ==> r == f.items
    ensures f.ScalarField? && LoginPage.JsTruthy(f.v) ==> r == Lines(LoginPage.JsString(f.v))
    ensures f.NoField? || (f.ScalarField? && !LoginPage.JsTruthy(f.v)) ==> r == []
  {
    match f
    case ListField(xs) => xs
    case ScalarField(v) => if LoginPage.JsTruthy(v) then Lines(LoginPage.JsString(v)) else []
    case NoField => []
  }

  /** A falsy number, boolean or text gives no steps. */
  lemma FalsyScalarsGiveNoSteps()
    ensures ImportedList(ScalarField(Json.JNum(0))) == []
    ensures ImportedList(ScalarField(Json.JBool(false))) == []
    ensures ImportedList(ScalarField(Json.JStr(""))) == []
  {
  }

  /** A non-zero number gives one step holding its digits. */
  lemma NumberGivesOneStep()
    ensures ImportedList(ScalarField(Json.JNum(5))) == ["5"]
  {
    var five := Json.JNum(5);
    assert LoginPage.JsTruthy(five);
    assert LoginPage.JsString(five) == "5" by {
      assert NatToString(5) == "5";
    }
    OneLine("5");
  }

  /** A text with no line break and no white space is one line. */
  lemma OneLine(t: string)
    requires t != [] && forall k :: 0 <= k < |t| ==> t[k] != '\n' && t[k] != '\r' && !JsSpace(t[k])
    ensures Lines(t) == [t]
  {
    assert '\n' !in t;
    SplitJoin([t], '\n');
    JoinOne(t, ['\n']);
    assert Split(t, '\n') == [t];
    assert RegexPieces(t) == [t];
    TrimOfTrimmed(t, JsSpace);
    assert Trimmed([t]) == [t];
  }

  /** The title compared on import: trimmed and lower-cased, missing as "". */
  function TitleKey(t: Option<string>): string {
    Lower(JsTrim(OrEmpty(t)))
  }

  function Keys(list: seq<ListedCase>): (r: seq<string>)
    ensures |r| == |list| && forall j :: 0 <= j < |list| ==> r[j] == TitleKey(list[j].title)
  {
    seq(|list|, j requires 0 <= j < |list| => TitleKey(list[j].title))
  }

  /** The first index at which `keys` holds `key` (`Array.prototype.find`). */
  function FirstIndex(keys: seq<string>, key: string): (r: Option<nat>)
    ensures r.Some? ==> r.value < |keys| && keys[r.value] == key
                        && forall j :: 0 <= j < r.value ==> keys[j] != key
    ensures r.None? <==> key !in keys
    decreases |keys|
  {
    if keys == [] then None
    else if keys[0] == key then Some(0)
    else
      var rest := FirstIndex(keys[1..], key);
      assert key in keys[1..] <==> key in keys;
      if rest.None? then None else Some(rest.value + 1)
  }

  datatype ImportOutcome = LoadExisting(existing: ListedCase) | CreateFrom(payload: Payload)

  /** `importTestCaseFromLog`: load the first listed case whose title matches
      after trimming and lower-casing; otherwise create one from the case. */
  function Import(projectId: int, list: seq<ListedCase>, tc: ImportCase): (r: ImportOutcome)
    ensures r.LoadExisting? <==> exists j :: 0 <= j < |list| && TitleKey(list[j].title) == TitleKey(tc.title)
    ensures r.LoadExisting? ==> r.existing in list && TitleKey(r.existing.title) == TitleKey(tc.title)
    ensures r.CreateFrom? ==> r.payload == Payload(projectId, tc.title, tc.description, ImportedList(tc.steps),
                                                   ImportedList(tc.preconditions), OrEmpty(tc.expectedResult))
  {
    var m := FirstIndex(Keys(list), TitleKey(tc.title));
    if m.Some? then LoadExisting(list[m.value])
    else CreateFrom(Payload(projectId, tc.title, tc.description, ImportedList(tc.steps),
                            ImportedList(tc.preconditions), OrEmpty(tc.expectedResult)))
  }

  /** Importing the same case twice creates it once: once a case with its
      title is listed, the import loads that one. */
  lemma ImportTwiceCreatesOnce(projectId: int, list: seq<ListedCase>, tc: ImportCase, created: ListedCase)
    requires Import(projectId, list, tc).CreateFrom?
    requires created.title == tc.title
    ensures Import(projectId, list + [created], tc).LoadExisting?
  {
    assert (list + [created])[|list|] == created;
  }

  /** A title already in its compared form compares equal to the title it
      came from: the key is idempotent. */
  lemma TitleKeyIdempotent(t: Option<string>)
    ensures TitleKey(Some(TitleKey(t))) == TitleKey(t)
  {
    var u := JsTrim(OrEmpty(t));
    var k := Lower(u);
    assert k == [] || (!JsSpace(k[0]) && !JsSpace(k[|k| - 1]));
    TrimOfTrimmed(k, JsSpace);
    LowerIdempotent(u);
  }

  /** Text steps in an imported case are split just as the form's text
      area is on submit. */
  lemma ImportSplitsLikeSubmit(projectId: int, tc: ImportCase, f: Form)
    requires tc.steps == ScalarField(Json.JStr(f.steps))
    requires ImportedList(tc.steps) != []
    ensures ImportedList(tc.steps) == SubmitPayload(projectId, f).steps
  {
  }
}
