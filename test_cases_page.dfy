/** The test-case generator page: when "Generate" is enabled, the
    character count, and the readable text "Copy Test Cases" puts on the
    clipboard. */
module TestCasesPage {
  import opened Common
  import Json
  import LoginPage

  /** A generated test case as the page reads it.  A text field holds any
      JSON value, or `None` for a missing property. */
  datatype GeneratedCase = GeneratedCase(
    title: Option<Json.Json>, priority: Option<Json.Json>,
    preconditions: Option<seq<string>>, steps: Option<seq<string>>, expected: Option<Json.Json>)

  /** A value inside a template literal: `String(v)`, so `null` renders as
      "null" and a missing property as "undefined". */
  function Show(x: Option<Json.Json>): (r: string)
    ensures x.None? ==> r == "undefined"
    ensures x == Some(Json.JNull) ==> r == "null"
    ensures x.Some? && x.value.JStr? ==> r == x.value.s
    ensures x.Some? ==> r == LoginPage.JsString(x.value)
  {
    if x.Some? then LoginPage.JsString(x.value) else "undefined"
  }

  /** A title of `null` and a missing title render differently, and a
      number renders as its digits. */
  lemma ShowTellsNullFromMissing()
    ensures Show(Some(Json.JNull)) != Show(None)
    ensures Show(Some(Json.JNum(5))) == "5"
  {
    assert Show(Some(Json.JNum(5))) == IntToString(5);
    assert NatToString(5) == "5";
  }

  /** `disabled={loading || !requirementText.trim()}`. */
  predicate GenerateDisabled(loading: bool, text: string)
    ensures loading || text == "" ==> GenerateDisabled(loading, text)
    ensures !GenerateDisabled(loading, text) ==> !loading && exists k :: 0 <= k < |text| && !JsSpace(text[k])
  {
    TrimEmptyIff(text, JsSpace);
    loading || JsTrim(text) == ""
  }

  /** Text made only of white space cannot be sent. */
  lemma BlankTextDisabled(text: string)
    requires forall k :: 0 <= k < |text| ==> JsSpace(text[k])
    ensures GenerateDisabled(false, text)
  {
    TrimEmptyIff(text, JsSpace);
  }

  /** `requirementText.length`, in UTF-16 code units. */
  function CharCount(text: string): (n: nat)
    ensures |text| <= n
    ensures (forall k :: 0 <= k < |text| ==> text[k] as int <= 0xFFFF) ==> n == |text|
  {
    JsLength(text)
  }

  /** `(pre || []).map(p => "- " + p).join("\n")`. */
  function Bulleted(pre: Option<seq<string>>): (r: string)
    ensures pre.None? ==> r == ""
  {
    var xs := if pre.Some? then pre.value else [];
    Join(seq(|xs|, i requires 0 <= i < |xs| => "- " + xs[i]), "\n")
  }

  /** `(steps || []).map((s, i) => (i + 1) + ". " + s).join("\n")`. */
  function NumberedLine(i: nat, s: string): string {
    NatToString(i + 1) + ". " + s
  }

  function Numbered(steps: Option<seq<string>>): (r: string)
    ensures steps.None? ==> r == ""
  {
    var xs := if steps.Some? then steps.value else [];
    Join(seq(|xs|, i requires 0 <= i < |xs| => NumberedLine(i, xs[i])), "\n")
  }

  /** One test case's section, numbered from 1. */
  function Section(idx: nat, tc: GeneratedCase): (r: string)
    ensures var head := "# " + NatToString(idx + 1) + ". ";
            |head| <= |r| && r[..|head|] == head
  {
    var head := "# " + NatToString(idx + 1) + ". ";
    var body := Show(tc.title) + " (" + Show(tc.priority) + ")\n\nPreconditions:\n" + Bulleted(tc.preconditions)
                + "\n\nSteps:\n" + Numbered(tc.steps) + "\n\nExpected:\n" + Show(tc.expected) + "\n";
    assert (head + body)[..|head|] == head;
    head + body
  }

  const Separator: string := "\n---\n\n"

  function Sections(cases: seq<GeneratedCase>): (r: seq<string>)
    ensures |r| == |cases|
    ensures forall i :: 0 <= i < |cases| ==> r[i] == Section(i, cases[i])
  {
    seq(|cases|, i requires 0 <= i < |cases| => Section(i, cases[i]))
  }

  /** `copyReadable`: nothing at all without test cases, else one section
      per test case joined by the separator. */
  function CopyReadable(cases: Option<seq<GeneratedCase>>): (r: Option<string>)
    ensures cases.None? || cases.value == [] <==> r.None?
    ensures r.Some? ==> r.value == Join(Sections(cases.value), Separator)
  {
    if cases.None? || cases.value == [] then None else Some(Join(Sections(cases.value), Separator))
  }

  /** With a single test case the text is its section, numbered 1. */
  lemma SingleCaseIsItsSection(tc: GeneratedCase)
    ensures CopyReadable(Some([tc])) == Some(Section(0, tc))
    ensures Section(0, tc)[..4] == "# 1."
  {
    assert NatToString(1) == "1";
    assert Sections([tc]) == [Section(0, tc)];
  }

  /** The steps are read back line by line: line `k` is step `k`
      numbered `k + 1`, when no step holds a newline. */
  lemma NumberedStepsReadBack(steps: seq<string>, k: int)
    requires steps != [] && 0 <= k < |steps|
    requires forall i :: 0 <= i < |steps| ==> '\n' !in steps[i]
    ensures |Split(Numbered(Some(steps)), '\n')| == |steps|
    ensures Split(Numbered(Some(steps)), '\n')[k] == NumberedLine(k, steps[k])
  {
    var lines := seq(|steps|, i requires 0 <= i < |steps| => NumberedLine(i, steps[i]));
    forall i | 0 <= i < |lines| ensures '\n' !in lines[i] {
      NoNewlineInLine(i, steps[i]);
    }
    SplitJoin(lines, '\n');
  }

  lemma NoNewlineInLine(i: nat, s: string)
    requires '\n' !in s
    ensures '\n' !in NumberedLine(i, s)
  {
    var d := NatToString(i + 1);
    assert forall k :: 0 <= k < |d| ==> IsDigit(d[k]);
    assert NumberedLine(i, s) == d + ". " + s;
  }

  /** The preconditions are read back line by line, each after "- ". */
  lemma BulletsReadBack(pre: seq<string>, k: int)
    requires pre != [] && 0 <= k < |pre|
    requires forall i :: 0 <= i < |pre| ==> '\n' !in pre[i]
    ensures |Split(Bulleted(Some(pre)), '\n')| == |pre|
    ensures Split(Bulleted(Some(pre)), '\n')[k] == "- " + pre[k]
  {
    var lines := seq(|pre|, i requires 0 <= i < |pre| => "- " + pre[i]);
    forall i | 0 <= i < |lines| ensures '\n' !in lines[i] {
      assert lines[i] == "- " + pre[i];
    }
    SplitJoin(lines, '\n');
  }
}
