/**
 * Python values as the helpers see them: the request and settings values,
 * their truthiness, their `"%s" %` rendering (`force_unicode` in the Python 2
 * modules), and the exceptions the helpers can raise.
 */
module Python {
  import opened Strings

  /** A Python value. `Obj` is any other object, known only by the text
      `"%s" % obj` gives; it is truthy, as objects are by default. */
  datatype Value =
    | NoneVal
    | Str(s: string)
    | Bool(b: bool)
    | Int(i: int)
    | List(items: seq<Value>)
    | Obj(text: string)

  /** The exceptions the modelled code raises. */
  datatype Error = TypeError | AttributeError | ValueError

  /** The outcome of a call that may raise. */
  datatype Result<+T> = Ok(value: T) | Raised(error: Error)

  datatype Option<+T> = None | Some(value: T)

  /** `bool(v)`. */
  predicate Truthy(v: Value) {
    match v
    case NoneVal => false
    case Str(s) => s != ""
    case Bool(b) => b
    case Int(i) => i != 0
    case List(items) => items != []
    case Obj(_) => true
  }

  /** `a or b`: the first operand if it is truthy, else the second. */
  function PyOr(a: Value, b: Value): (r: Value)
    ensures r == a || r == b
    ensures Truthy(a) ==> r == a
  {
    if Truthy(a) then a else b
  }

  /** `"%s" % v`. Strings inside a list are shown as `u'…'` (Python 2 with
      `unicode_literals`); quote escaping is not modelled. */
  function ToStr(v: Value): string
    decreases v, 0
  {
    match v
    case NoneVal => "None"
    case Str(s) => s
    case Bool(b) => if b then "True" else "False"
    case Int(i) => IntToString(i)
    case List(items) =>
      "[" + Join(", ", seq(|items|, k requires 0 <= k < |items| => Repr(items[k]))) + "]"
    case Obj(text) => text
  }

  /** `repr(v)` as used inside a list's rendering. */
  function Repr(v: Value): string
    decreases v, 1
  {
    if v.Str? then "u'" + v.s + "'" else ToStr(v)
  }

  /** `d.get(k)` on a string-valued mapping such as a QueryDict or `META`. */
  function Get(m: map<string, string>, k: string): Value {
    if k in m then Str(m[k]) else NoneVal
  }
}
