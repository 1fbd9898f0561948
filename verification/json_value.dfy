/** The loosely typed response body the adapter receives, and the JavaScript
    coercions it applies to such values: truthiness, `String(v)`, `v || d` and
    `parseInt(v, 10)`. */
module JsonValue {
  import opened Options
  import JsText

  /** A decoded JSON value. Numbers are exact integers. */
  datatype Json =
    | JNull
    | JBool(b: bool)
    | JNum(n: int)
    | JStr(s: string)
    | JArr(items: seq<Json>)
    | JObj(fields: map<string, Json>)

  /** A looked-up value; `None` is JavaScript's `undefined`. */
  type Value = Option<Json>

  /** JavaScript truthiness: `undefined`, `null`, `false`, `0` and `""` are falsy. */
  predicate Truthy(v: Value) {
    match v
    case None => false
    case Some(j) =>
      match j
      case JNull => false
      case JBool(b) => b
      case JNum(n) => n != 0
      case JStr(s) => s != ""
      case JArr(_) => true
      case JObj(_) => true
  }

  /** `v || d`. */
  function OrElse(v: Value, d: Json): (r: Json)
    ensures Truthy(v) ==> Some(r) == v
    ensures !Truthy(v) ==> r == d
  {
    if Truthy(v) then v.value else d
  }

  /** Whether `String(j)` returns. JSON has no functions, so an object with its
      own `toString` member holds a non-callable one, and turning it into text
      (or into a number) raises a `TypeError`; an array is turned into text item
      by item, so one such item anywhere inside makes it fail too. */
  predicate Converts(j: Json)
    decreases j
  {
    match j
    case JObj(fields) => "toString" !in fields
    case JArr(items) => forall i :: 0 <= i < |items| ==> Converts(items[i])
    case _ => true
  }

  /** `undefined` converts too. */
  predicate ValueConverts(v: Value) {
    v.None? || Converts(v.value)
  }

  /** `String(j)`: arrays are joined with commas, with `null` items left empty. */
  function ToJsString(j: Json): string
    requires Converts(j)
    decreases j, 1
  {
    match j
    case JNull => "null"
    case JBool(b) => if b then "true" else "false"
    case JNum(n) => JsText.Dec(n)
    case JStr(s) => s
    case JArr(items) => JoinItems(j, items)
    case JObj(_) => "[object Object]"
  }

  /** `items.join(",")` for the items of array `parent`. */
  function JoinItems(parent: Json, items: seq<Json>): string
    requires forall i :: 0 <= i < |items| ==> items[i] < parent && Converts(items[i])
    decreases parent, 0, |items|
  {
    if |items| == 0 then ""
    else
      var head := if items[0].JNull? then "" else ToJsString(items[0]);
      if |items| == 1 then head else head + "," + JoinItems(parent, items[1..])
  }

  /** The template-literal rendering `${v}`, where `undefined` prints as such. */
  function Render(v: Value): string
    requires ValueConverts(v)
  {
    match v
    case None => "undefined"
    case Some(j) => ToJsString(j)
  }

  /** `parseInt(v, 10)` on a value that can be turned into text; the text is
      then read, `None` standing for `NaN`. */
  function ParseIntValue(v: Value): Option<int>
    requires ValueConverts(v)
  {
    JsText.ParseIntText(Render(v))
  }

  /** An object with its own `toString` member cannot be turned into text,
      alone or inside an array, so `parseInt` and `${...}` throw on it; any
      other object converts, whatever else it holds. */
  lemma ToStringMemberBlocksConversion(fields: map<string, Json>, before: seq<Json>, after: seq<Json>)
    ensures Converts(JObj(fields)) <==> "toString" !in fields
    ensures "toString" in fields ==> !Converts(JArr(before + [JObj(fields)] + after))
  {
    if "toString" in fields {
      var items := before + [JObj(fields)] + after;
      assert items[|before|] == JObj(fields);
    }
  }

  /** `parseInt` reads a number, its decimal text and a one-item array holding
      it back exactly. */
  lemma ParseIntOfNumber(n: int)
    ensures ParseIntValue(Some(JNum(n))) == Some(n)
    ensures ParseIntValue(Some(JStr(JsText.Dec(n)))) == Some(n)
    ensures ParseIntValue(Some(JArr([JNum(n)]))) == Some(n)
  {
    var d := JsText.Dec(n);
    JsText.ParseIntOfDec(n, "");
    assert d + "" == d;
    assert JsText.ParseIntText(d) == Some(n);
    assert Render(Some(JNum(n))) == d;
    assert Render(Some(JStr(d))) == d;
    var a := JArr([JNum(n)]);
    assert JoinItems(a, [JNum(n)]) == d;
    assert Render(Some(a)) == d;
  }

  /** `undefined`, `null`, booleans, the empty array and every object without
      its own `toString` member are `NaN`. */
  lemma ParseIntOfNonNumbers(fields: map<string, Json>)
    ensures ParseIntValue(None) == None
    ensures ParseIntValue(Some(JNull)) == None
    ensures ParseIntValue(Some(JBool(true))) == None
    ensures ParseIntValue(Some(JBool(false))) == None
    ensures "toString" !in fields ==> ParseIntValue(Some(JObj(fields))) == None
    ensures ParseIntValue(Some(JArr([]))) == None
  {
    JsText.ParseIntRejectsLeadingText("undefined");
    JsText.ParseIntRejectsLeadingText("null");
    JsText.ParseIntRejectsLeadingText("true");
    JsText.ParseIntRejectsLeadingText("false");
    JsText.ParseIntRejectsLeadingText("[object Object]");
    JsText.ParseIntRejectsLeadingText("");
  }
}
