/** The values the wizard keeps in session storage: whatever
    `JSON.stringify` writes and `JSON.parse` reads back. Numbers are the
    integers the wizard stores. */
module Json {
  import opened Base
  import opened Objects
  import opened Text

  datatype Json =
    | JNull
    | JBool(b: bool)
    | JNum(n: int)
    | JStr(s: string)
    | JArr(items: seq<Json>)
    | JObj(props: Props<Json>)

  /** JavaScript truthiness (ToBoolean, section 7.1.2 of ECMA-262): what
      `if (x)`, `!x` and `x || y` test. */
  predicate Truthy(j: Json) {
    match j
    case JNull => false
    case JBool(b) => b
    case JNum(n) => n != 0
    case JStr(s) => s != ""
    case JArr(_) => true
    case JObj(_) => true
  }

  /** `j.k`, with `None` for `undefined`; only objects carry the properties
      the wizard reads. */
  function Member(j: Json, k: string): (r: Option<Json>)
    ensures r.Some? <==> j.JObj? && exists i :: 0 <= i < |j.props| && j.props[i].0 == k
    ensures r.Some? ==> exists i :: 0 <= i < |j.props| && j.props[i] == (k, r.value)
  {
    if j.JObj? then Get(j.props, k) else None
  }

  /** `j.k || fallback`. */
  function MemberOr(j: Json, k: string, fallback: Json): (r: Json)
    ensures Truthy(r) || r == fallback
    ensures Member(j, k).Some? && Truthy(Member(j, k).value) ==> r == Member(j, k).value
    ensures Member(j, k).None? || !Truthy(Member(j, k).value) ==> r == fallback
  {
    match Member(j, k)
    case Some(v) => if Truthy(v) then v else fallback
    case None => fallback
  }

  /** `x || []` on a value the wizard only ever stores as an array. */
  function ArrayItems(j: Json): (r: seq<Json>)
    ensures !Truthy(j) ==> r == []
    ensures j.JArr? ==> r == j.items
  {
    if j.JArr? then j.items else []
  }

  /** `s || null` for a form-data entry: missing or empty becomes null. */
  function StrOrNull(s: Option<string>): (r: Json)
    ensures Truthy(r) <==> s.Some? && s.value != ""
    ensures Truthy(r) ==> r == JStr(s.value)
    ensures !Truthy(r) ==> r == JNull
  {
    if s.Some? && s.value != "" then JStr(s.value) else JNull
  }

  /** `String(j)` (ToString, section 7.1.17 of ECMA-262) of a stored value,
      as `parseInt` sees its argument: an array is its items joined with
      "," (null items as the empty text), any object "[object Object]". */
  function JsText(j: Json): string
    decreases j, 1
  {
    match j
    case JNull => "null"
    case JBool(b) => if b then "true" else "false"
    case JNum(n) => IntToString(n)
    case JStr(s) => s
    case JArr(items) => JoinedText(items)
    case JObj(_) => "[object Object]"
  }

  /** `items.join(",")`. */
  function JoinedText(items: seq<Json>): string
    decreases items, 0
  {
    if items == [] then ""
    else
      var first := if items[0] == JNull then "" else JsText(items[0]);
      if |items| == 1 then first else first + "," + JoinedText(items[1..])
  }

  /** What `parseInt` with no radix makes of a stored number, a stored
      array holding one number, and a stored null, boolean or object. */
  lemma ParseStoredText(j: Json)
    ensures j.JNum? ==> ParseIntAuto(JsText(j)) == Some(j.n)
    ensures j.JArr? && |j.items| == 1 && j.items[0].JNum? ==>
      ParseIntAuto(JsText(j)) == Some(j.items[0].n)
    ensures j.JNull? || j.JBool? || j.JObj? ==> ParseIntAuto(JsText(j)) == None
  {
    match j
    case JNum(n) => ParseIntAutoOfIntToString(n);
    case JArr(items) =>
      if |items| == 1 && items[0].JNum? {
        assert JsText(items[0]) == IntToString(items[0].n);
        assert JoinedText(items) == JsText(items[0]);
        ParseIntAutoOfIntToString(items[0].n);
      }
    case JNull => ParseIntAutoOfWord("null");
    case JBool(b) => ParseIntAutoOfWord(if b then "true" else "false");
    case JObj(_) => ParseIntAutoOfWord("[object Object]");
    case JStr(_) =>
  }
}
