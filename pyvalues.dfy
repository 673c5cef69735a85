/** The scalar JSON values the downloader reads out of API responses, with the
    three Python operations it applies to them: truthiness, `str()` and `==`. */
module PyValues {
  import opened Wrappers
  import opened Text

  datatype Scalar = PyNone | PyBool(b: bool) | PyInt(i: int) | PyStr(s: string)

  /** Python truthiness: `None`, `False`, `0` and `""` are false. */
  predicate Truthy(v: Scalar)
  {
    match v
    case PyNone => false
    case PyBool(b) => b
    case PyInt(i) => i != 0
    case PyStr(s) => s != ""
  }

  /** `a or b`: the left operand when it is truthy, otherwise the right one. */
  function Or(a: Scalar, b: Scalar): (r: Scalar)
    ensures Truthy(a) ==> r == a
    ensures !Truthy(a) ==> r == b
  {
    if Truthy(a) then a else b
  }

  /** Python's `str()`. */
  function Str(v: Scalar): string
  {
    match v
    case PyNone => "None"
    case PyBool(b) => if b then "True" else "False"
    case PyInt(i) => IntToString(i)
    case PyStr(s) => s
  }

  /** The numeric value of a bool or an int (`True == 1` in Python). */
  function Numeric(v: Scalar): Option<int>
  {
    match v
    case PyBool(b) => Some(if b then 1 else 0)
    case PyInt(i) => Some(i)
    case _ => None
  }

  /** Python's `==` between two scalars. */
  predicate PyEq(a: Scalar, b: Scalar)
  {
    if Numeric(a).Some? && Numeric(b).Some? then Numeric(a).value == Numeric(b).value
    else a == b
  }

  /** `str()` of a value is empty only for the empty string itself. */
  lemma StrEmpty(v: Scalar)
    ensures Str(v) == "" <==> v == PyStr("")
  {
  }

  /** A truthy value never prints as the empty string. */
  lemma TruthyStrNonEmpty(v: Scalar)
    ensures Truthy(v) ==> Str(v) != ""
  {
    StrEmpty(v);
  }

}
