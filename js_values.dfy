/** JSON values as the API routes receive them, and the three JavaScript
    conversions the routes apply to them: truthiness (`x || default`),
    `String(x)` and `Number(x)`. A value that may be `undefined` is an
    `Option<Json>` whose `None` is `undefined`. Numbers are integers here. */
module JsValues {
  import opened Types
  import opened Text

  datatype Json =
    | JNull
    | JBool(b: bool)
    | JNum(n: int)
    | JStr(s: string)
    | JArr(items: seq<Json>)
    | JObj(fields: map<string, Json>)

  /** JavaScript truthiness: `undefined`, `null`, `false`, `0` and `""` are
      falsy; every other value, arrays and objects included, is truthy. */
  predicate Truthy(v: Option<Json>)
  {
    match v
    case None => false
    case Some(JNull) => false
    case Some(JBool(b)) => b
    case Some(JNum(n)) => n != 0
    case Some(JStr(s)) => s != ""
    case Some(JArr(_)) => true
    case Some(JObj(_)) => true
  }

  /** `String(v)`: an array is its elements joined by "," with `null` shown
      as the empty string; a plain object is "[object Object]". */
  function ToJsString(v: Json): (r: string)
    ensures v.JStr? ==> r == v.s
    decreases v
  {
    match v
    case JNull => "null"
    case JBool(b) => if b then "true" else "false"
    case JNum(n) => IntToString(n)
    case JStr(s) => s
    case JArr(items) =>
      Join(seq(|items|, i requires 0 <= i < |items| =>
        if items[i].JNull? then "" else ToJsString(items[i])), ",")
    case JObj(_) => "[object Object]"
  }

  /** JavaScript's string-to-number conversion for the integer literals it
      accepts: surrounding white space is ignored, an empty or all-space text
      is 0, an optional sign is followed by ASCII digits; anything else is NaN
      (`None`). */
  function StringToNumber(s: string): (r: Option<int>)
    ensures AllSpace(Js, s) ==> r == Some(0)
    ensures s != "" && AllDigits(s) ==> r == Some(DigitsValue(s))
  {
    var t := Trim(s, Js);
    assert s != "" && AllDigits(s) ==> t == s by {
      if s != "" && AllDigits(s) {
        TrimOfTrimmed(s, Js);
      }
    }
    if t == "" then Some(0)
    else if AllDigits(t) then Some(DigitsValue(t))
    else if (t[0] == '+' || t[0] == '-') && |t| > 1 && AllDigits(t[1..]) then
      var v: int := DigitsValue(t[1..]);
      Some(if t[0] == '-' then -v else v)
    else None
  }

  /** `Number(v)`; `None` in the result is NaN. */
  function ToJsNumber(v: Option<Json>): (r: Option<int>)
    ensures v.Some? && v.value.JNum? ==> r == Some(v.value.n)
    ensures v.None? ==> r.None?
  {
    match v
    case None => None
    case Some(JNull) => Some(0)
    case Some(JBool(b)) => Some(if b then 1 else 0)
    case Some(JNum(n)) => Some(n)
    case Some(JStr(s)) => StringToNumber(s)
    case Some(JArr(items)) => StringToNumber(ToJsString(JArr(items)))
    case Some(JObj(_)) => None
  }
}
