/**
 * The PHP values the report-instance form works on, and the handful of PHP
 * language rules its decisions depend on: `empty()`, `isset()`, `??`, the
 * truthiness of `if ($x)`, string conversion and loose comparison `==`.
 */
module PhpValues {

  datatype Option<+T> = None | Some(value: T)

  /** A PHP value as it occurs in the form's arrays. A PHP array with string
      keys is a `Dict`; an array built by appending (`$a[] = ...`) is a `List`. */
  datatype Value =
    | Null
    | Bool(b: bool)
    | Int(i: int)
    | Str(s: string)
    | List(items: seq<Value>)
    | Dict(entries: map<string, Value>)

  /** A PHP array indexed by string keys, such as `$defaults` or `$params`. */
  type Row = map<string, Value>

  /** `empty($v)` for a value that exists: the values PHP converts to false. */
  predicate IsEmpty(v: Value) {
    match v
    case Null => true
    case Bool(b) => !b
    case Int(i) => i == 0
    case Str(s) => s == "" || s == "0"
    case List(items) => items == []
    case Dict(entries) => entries == map[]
  }

  /** `if ($v)`: PHP truthiness, the negation of `empty()`. */
  predicate Truthy(v: Value) {
    !IsEmpty(v)
  }

  /** `$m[$k]` read without a guard: a missing key reads as NULL. */
  function Get(m: Row, k: string): Value {
    if k in m then m[k] else Null
  }

  /** `empty($m[$k])`: also true when the key is missing. */
  predicate EmptyAt(m: Row, k: string) {
    IsEmpty(Get(m, k))
  }

  /** `isset($m[$k])`: the key exists and its value is not NULL. */
  predicate IssetAt(m: Row, k: string) {
    k in m && m[k] != Null
  }

  /** `$m[$k] ?? $default`. With a NULL default it is the plain read: a
      missing key and a NULL entry both give NULL. */
  function Coalesce(m: Row, k: string, default: Value): (r: Value)
    ensures default == Null ==> r == Get(m, k)
  {
    if IssetAt(m, k) then m[k] else default
  }

  function Digit(d: nat): char
    requires d < 10
  {
    "0123456789"[d]
  }

  /** The decimal text of a natural number, as PHP prints an int. */
  function NatText(n: nat): string
    decreases n
  {
    if n < 10 then [Digit(n)] else NatText(n / 10) + [Digit(n % 10)]
  }

  function IntText(i: int): string {
    if i < 0 then "-" + NatText(-i) else NatText(i)
  }

  /** `(string) $v`. An array converts to the text "Array" (with a notice;
      PHP 8's string parameters refuse an array with a TypeError instead). */
  function Text(v: Value): string {
    match v
    case Null => ""
    case Bool(b) => if b then "1" else ""
    case Int(i) => IntText(i)
    case Str(s) => s
    case List(_) => "Array"
    case Dict(_) => "Array"
  }

  /** `$v == $s`, PHP 8 loose comparison of a value with a NON-numeric string
      `$s`: NULL compares as "", a bool compares with the string's truth value,
      an int is compared as its decimal text, an array is never equal. */
  predicate LooseEqualsStr(v: Value, s: string) {
    match v
    case Null => s == ""
    case Bool(b) => b == (s != "" && s != "0")
    case Int(i) => IntText(i) == s
    case Str(t) => t == s
    case List(_) => false
    case Dict(_) => false
  }

  /** `$v != NULL`, PHP loose comparison with NULL. It differs from
      truthiness in exactly one value: the string "0" is empty, yet it is
      loosely different from NULL, because NULL compares with a string as "". */
  predicate LooseNotNull(v: Value)
    ensures LooseNotNull(v) <==> Truthy(v) || v == Str("0")
  {
    match v
    case Null => false
    case Bool(b) => b
    case Int(i) => i != 0
    case Str(s) => s != ""
    case List(items) => items != []
    case Dict(entries) => entries != map[]
  }
}
