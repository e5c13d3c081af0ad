/**
 * The Python values a tool argument can carry, as a JSON-speaking caller
 * delivers them, with the two pieces of Python semantics the core depends on:
 * `str(value)` and the equality that `value in [...]` uses.
 */
module PyValues {
  import opened Strings

  datatype Value =
    | Null                                  // None
    | Bool(b: bool)
    | Int(i: int)
    | Float(x: real, text: string)          // a finite float and its str()
    | Str(s: string)
    | List(items: seq<Value>)
    | Dict(entries: seq<(string, Value)>)

  /** The value of an enum member: every enum of the domain library is string- or integer-valued. */
  datatype EnumValue = EnumStr(s: string) | EnumInt(n: int)

  /** `str(v)`. */
  function PyStr(v: Value): string
    decreases v, 0
  {
    match v
    case Null => "None"
    case Bool(b) => if b then "True" else "False"
    case Int(i) => IntToDecimal(i)
    case Float(_, text) => text
    case Str(s) => s
    case List(items) =>
      "[" + Join(seq(|items|, k requires 0 <= k < |items| => PyRepr(items[k])), ", ") + "]"
    case Dict(entries) =>
      "{" + Join(seq(|entries|, k requires 0 <= k < |entries| =>
                       "'" + entries[k].0 + "': " + PyRepr(entries[k].1)), ", ") + "}"
  }

  /** `repr(v)`, as `str` shows the elements of a list or a dict. */
  function PyRepr(v: Value): string
    decreases v, 1
  {
    if v.Str? then "'" + v.s + "'" else PyStr(v)
  }

  /** `v == m` in Python, for `v` an argument value and `m` an enum member's value (`True == 1`, `1.0 == 1`). */
  predicate EqualsEnumValue(v: Value, m: EnumValue)
  {
    match m
    case EnumStr(s) => v == Str(s)
    case EnumInt(n) =>
      match v
      case Bool(b) => n == (if b then 1 else 0)
      case Int(i) => i == n
      case Float(x, _) => x == n as real
      case _ => false
  }

  /** The argument value that carries an enum member's value: a string or an integer. */
  function AsValue(m: EnumValue): (v: Value)
    ensures EqualsEnumValue(v, m)
    ensures v.Str? || v.Int?
  {
    match m
    case EnumStr(s) => Str(s)
    case EnumInt(n) => Int(n)
  }

  /** The text of a list or a dict starts with a bracket, never with a letter. */
  lemma CollectionTextIsBracketed(v: Value)
    requires v.List? || v.Dict?
    ensures |PyStr(v)| > 0 && (PyStr(v)[0] == '[' || PyStr(v)[0] == '{')
  {
  }
}
