/** The JSON values the handlers decode, with the Python operations they
    apply to them: truthiness, `dict.get`, iteration, `str()`, and
    `json.dumps` of a list of strings.  `json.loads` itself is a parameter
    of the functions that call it. */
module Json {
  import opened Common

  /** A decoded JSON value; numbers are integers, an object keeps its
      members in document order. */
  datatype Json = JNull | JBool(b: bool) | JNum(n: int) | JStr(s: string)
                | JArr(items: seq<Json>) | JObj(members: seq<(string, Json)>)

  /** Python's truth value of the decoded object. */
  predicate IsTruthy(j: Json) {
    match j
    case JNull => false
    case JBool(b) => b
    case JNum(n) => n != 0
    case JStr(s) => s != ""
    case JArr(items) => items != []
    case JObj(members) => members != []
  }

  /** `d.get(key)`: the value of the last member named `key` (a later
      duplicate overwrites an earlier one), `JNull` standing for `None`. */
  function Get(members: seq<(string, Json)>, key: string): (r: Json)
    ensures (forall i :: 0 <= i < |members| ==> members[i].0 != key) ==> r == JNull
    decreases |members|
  {
    if |members| == 0 then JNull
    else if members[|members| - 1].0 == key then members[|members| - 1].1
    else Get(members[..|members| - 1], key)
  }

  /** `a or b`. */
  function Or(a: Json, b: Json): (r: Json)
    ensures IsTruthy(a) ==> r == a
    ensures !IsTruthy(a) ==> r == b
  {
    if IsTruthy(a) then a else b
  }

  /** The distinct keys of `members`, in order of first appearance. */
  function Keys(members: seq<(string, Json)>): (r: seq<string>)
    ensures forall k :: k in r <==> exists i :: 0 <= i < |members| && members[i].0 == k
    decreases |members|
  {
    if |members| == 0 then []
    else
      var front := Keys(members[..|members| - 1]);
      var k := members[|members| - 1].0;
      assert forall i :: 0 <= i < |members| - 1 ==> members[..|members| - 1][i] == members[i];
      if k in front then front else front + [k]
  }

  /** What `for x in j` visits: the items of a list, the keys of an object,
      the one-character strings of a string; `None` where Python raises
      `TypeError` (numbers, booleans, null). */
  function Iterate(j: Json): (r: Option<seq<Json>>)
    ensures j.JArr? ==> r == Some(j.items)
    ensures r.None? <==> (j.JNull? || j.JBool? || j.JNum?)
  {
    match j
    case JArr(items) => Some(items)
    case JObj(members) =>
      var ks := Keys(members);
      Some(seq(|ks|, i requires 0 <= i < |ks| => JStr(ks[i])))
    case JStr(s) => Some(seq(|s|, i requires 0 <= i < |s| => JStr([s[i]])))
    case _ => None
  }

  /** `str(j)`: a string is itself, a number its decimal digits, a boolean
      "True" or "False", null "None"; the `repr` of a list or a dict is the
      parameter `repr`. */
  function PyStr(j: Json, repr: Json -> string): (r: string)
    ensures j.JStr? ==> r == j.s
  {
    match j
    case JNull => "None"
    case JBool(b) => if b then "True" else "False"
    case JNum(n) => IntToString(n)
    case JStr(s) => s
    case _ => repr(j)
  }

  /** `[str(s) for s in items if s is not None]`. */
  function StrsOf(items: seq<Json>, repr: Json -> string): (r: seq<string>)
    ensures |r| <= |items|
    decreases |items|
  {
    if |items| == 0 then []
    else
      var front := StrsOf(items[..|items| - 1], repr);
      var last := items[|items| - 1];
      if last.JNull? then front else front + [PyStr(last, repr)]
  }

  /** The JSON array of the strings `xs`. */
  function StrArray(xs: seq<string>): Json {
    JArr(seq(|xs|, i requires 0 <= i < |xs| => JStr(xs[i])))
  }

  /** Reading back an array of strings gives the strings. */
  lemma {:induction false} StrsOfStrArray(xs: seq<string>, repr: Json -> string)
    ensures StrsOf(StrArray(xs).items, repr) == xs
    decreases |xs|
  {
    if |xs| > 0 {
      var front := xs[..|xs| - 1];
      assert StrArray(xs).items[..|xs| - 1] == StrArray(front).items;
      StrsOfStrArray(front, repr);
      assert xs == front + [xs[|xs| - 1]];
    }
  }

  // ---------------------------------------------------------------------
  // json.dumps of a list of strings (default separators, ensure_ascii)
  // ---------------------------------------------------------------------

  function HexDigit(d: nat): char
    requires d < 16
  {
    if d < 10 then ('0' as int + d) as char else ('a' as int + d - 10) as char
  }

  /** `\uXXXX` with four lower-case hex digits. */
  function Unicode(code: nat): (r: string)
    requires code < 0x10000
    ensures |r| == 6
  {
    ['\\', 'u', HexDigit(code / 4096), HexDigit(code / 256 % 16), HexDigit(code / 16 % 16), HexDigit(code % 16)]
  }

  /** The escape of one character: the short forms for the quote, the
      backslash and five control characters, the character itself when it
      is printable ASCII, a `\u` escape (a surrogate pair above U+FFFF)
      otherwise. */
  function EscapeChar(c: char): (r: string)
    ensures |r| >= 1
  {
    if c == '"' then "\\\""
    else if c == '\\' then "\\\\"
    else if c == '\n' then "\\n"
    else if c == '\r' then "\\r"
    else if c == '\t' then "\\t"
    else if c == '\U{8}' then "\\b"
    else if c == '\U{C}' then "\\f"
    else if ' ' <= c <= '~' then [c]
    else if (c as int) < 0x10000 then Unicode(c as int)
    else
      var v := c as int - 0x10000;
      Unicode(0xD800 + v / 1024 % 1024) + Unicode(0xDC00 + v % 1024)
  }

  function Escape(s: string): string
    decreases |s|
  {
    if |s| == 0 then [] else Escape(s[..|s| - 1]) + EscapeChar(s[|s| - 1])
  }

  function Quote(s: string): (r: string)
    ensures |r| >= 2 && r[0] == '"'
  {
    "\"" + Escape(s) + "\""
  }

  /** `json.dumps(xs)`: `["a", "b"]`. */
  function Dumps(xs: seq<string>): (r: string)
    ensures |r| >= 2 && r[0] == '[' && r[|r| - 1] == ']'
  {
    "[" + Join(seq(|xs|, i requires 0 <= i < |xs| => Quote(xs[i])), ", ") + "]"
  }

  /** What `json.loads` guarantees about `json.dumps`: an array of strings
      reads back as that array. */
  ghost predicate ReadsDumps(loads: string -> Option<Json>) {
    forall xs: seq<string> :: loads(Dumps(xs)) == Some(StrArray(xs))
  }
}
