/** The slice of JavaScript values the store handles: plain objects with primitive fields. */
module JsValues {

  import opened Numerals

  /** A primitive JavaScript value held by a field of a stored object. */
  datatype Value = Null | Bool(b: bool) | Int(i: int) | Str(s: string)

  /** A plain object: its own enumerable properties. */
  type Record = map<string, Value>

  /** JavaScript truthiness (`!v` is false). */
  predicate Truthy(v: Value)
    ensures Truthy(v) <==> v !in {Null, Bool(false), Int(0), Str("")}
  {
    match v
    case Null => false
    case Bool(b) => b
    case Int(i) => i != 0
    case Str(s) => s != ""
  }

  /** The value of `v + 1` (the `rev += 1` of the store): numbers add, `null` and booleans
      convert to a number first, a string gets the text "1" appended. The result always
      differs from `v`, and is a number or a string. */
  function PlusOne(v: Value): (r: Value)
    ensures r != v
    ensures r.Int? || r.Str?
    ensures v.Int? ==> r == Int(v.i + 1)
  {
    match v
    case Null => Int(1)
    case Bool(b) => Int(if b then 2 else 1)
    case Int(i) => Int(i + 1)
    case Str(s) => Str(s + "1")
  }

  /** The text a template literal `${v}` produces for `v`. */
  function Text(v: Value): string
  {
    match v
    case Null => "null"
    case Bool(b) => if b then "true" else "false"
    case Int(i) => IntToString(i)
    case Str(s) => s
  }
}
