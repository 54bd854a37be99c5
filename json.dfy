/** JSON values as they arrive in request bodies, JavaScript truthiness and the `||`
    defaulting the routes rely on, and an abstract JSON.stringify/JSON.parse pair. */
module Json {
  import opened Wrappers

  /** A JSON value. Numbers are exact reals: no floating-point rounding is modelled. */
  datatype Json =
    | JNull
    | JBool(b: bool)
    | JNum(n: real)
    | JStr(s: string)
    | JArr(items: seq<Json>)
    | JObj(members: map<string, Json>)

  /** JavaScript truthiness of a request-body field; `None` is `undefined`. */
  predicate Truthy(v: Option<Json>) {
    match v
    case None => false
    case Some(j) => !(j == JNull || j == JBool(false) || j == JNum(0.0) || j == JStr(""))
  }

  /** The expression `v || fallback`. */
  function Or(v: Option<Json>, fallback: Json): Json {
    if Truthy(v) then v.value else fallback
  }

  /** What a field becomes when bound as an SQL parameter: `undefined` binds as NULL. */
  function Bind(v: Option<Json>): Json {
    v.GetOr(JNull)
  }

  /** `x || fallback` can only produce the submitted value or the fallback, and it
      keeps every truthy submission untouched. */
  lemma OrKeepsTruthy(v: Option<Json>, fallback: Json)
    ensures Or(v, fallback) == fallback || Some(Or(v, fallback)) == v
    ensures Truthy(v) <==> (v.Some? && Or(v, fallback) == v.value && v.value != JNull && v.value != JBool(false)
                            && v.value != JNum(0.0) && v.value != JStr(""))
  {
  }

  /** The text stored in a JSON column, classified by what `JSON.parse` does with it:
      the empty string (falsy, never parsed), the text of some JSON document, or text
      that `JSON.parse` rejects. No JSON grammar is modelled. */
  datatype Text = EmptyText | Stringified(doc: Json) | Malformed

  /** `JSON.stringify` of a JSON value. */
  function Stringify(j: Json): (t: Text)
    ensures t != EmptyText
  {
    Stringified(j)
  }

  /** `JSON.parse`; `None` when it throws. */
  function Parse(t: Text): (r: Option<Json>)
    ensures r.Some? <==> t.Stringified?
  {
    match t
    case Stringified(j) => Some(j)
    case _ => None
  }

  /** Parsing undoes stringifying, and stringifying is injective. */
  lemma {:induction false} ParseStringify(j: Json, k: Json)
    ensures Parse(Stringify(j)) == Some(j)
    ensures Stringify(j) == Stringify(k) ==> j == k
  {
  }
}
