/**
 * The JavaScript values that a parsed YAML frontmatter block can hold, with
 * the parts of JavaScript semantics the scripts rely on: truthiness, the
 * `.length` property, the type names zod reports, and `new Date(x)`.
 */
module JsValues {
  import opened Wrappers

  /** A valid JavaScript `Date`, as milliseconds since the epoch. */
  type Instant = int

  /** Largest magnitude of a valid JavaScript time value (8.64e15 ms). */
  const MAX_TIME: int := 8_640_000_000_000_000

  datatype Value =
    | Undefined
    | Null
    | Str(s: string)
    | Num(n: int)
    | Bool(b: bool)
    | Arr(items: seq<Value>)
    | Obj
    | DateVal(t: Instant)

  /** A gray-matter `data` object: absent keys read as `undefined`. */
  type Frontmatter = map<string, Value>

  function Get(data: Frontmatter, key: string): Value
  {
    if key in data then data[key] else Undefined
  }

  /** JavaScript truthiness (`if (v)`, `!v`, `v || d`, `v && w`). */
  predicate Truthy(v: Value)
  {
    match v
    case Undefined => false
    case Null => false
    case Str(s) => s != ""
    case Num(n) => n != 0
    case Bool(b) => b
    case Arr(_) => true
    case Obj => true
    case DateVal(_) => true
  }

  /** `v || fallback`. */
  function OrElse(v: Value, fallback: Value): Value
  {
    if Truthy(v) then v else fallback
  }

  /**
   * A JavaScript string's `.length`: its UTF-16 code units, so a character
   * outside the Basic Multilingual Plane counts twice.
   */
  function Utf16Length(s: string): (n: nat)
    ensures |s| <= n <= 2 * |s|
    ensures n == |s| <==> forall i :: 0 <= i < |s| ==> s[i] as int < 0x1_0000
  {
    if s == [] then 0
    else
      assert forall i :: 1 <= i < |s| ==> s[i] == s[1..][i - 1];
      (if s[0] as int < 0x1_0000 then 1 else 2) + Utf16Length(s[1..])
  }

  /** `v.length`: defined for strings and arrays, `undefined` (None) otherwise. */
  function Length(v: Value): Option<nat>
  {
    match v
    case Str(s) => Some(Utf16Length(s))
    case Arr(items) => Some(|items|)
    case _ => None
  }

  /** The type name zod puts in "Expected X, received <name>". */
  function TypeName(v: Value): string
  {
    match v
    case Undefined => "undefined"
    case Null => "null"
    case Str(_) => "string"
    case Num(_) => "number"
    case Bool(_) => "boolean"
    case Arr(_) => "array"
    case Obj => "object"
    case DateVal(_) => "date"
  }

  /**
   * How a string (or an array, via its string form) is read as a date by the
   * JavaScript engine: None for "Invalid Date". Left abstract.
   */
  type DateParser = Value -> Option<Instant>

  /** `new Date(v)`: Some(time) when the result is a valid date, None when it is NaN. */
  function NewDate(v: Value, parse: DateParser): Option<Instant>
  {
    match v
    case Undefined => None
    case Null => Some(0)
    case Bool(b) => Some(if b then 1 else 0)
    case Num(n) => if -MAX_TIME <= n <= MAX_TIME then Some(n) else None
    case DateVal(t) => Some(t)
    case Obj => None
    case Str(_) => parse(v)
    case Arr(_) => parse(v)
  }
}
