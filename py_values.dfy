/**
 * The dynamically typed values that reach the scoring code from a JSON
 * request body, Python's `int()`, `float()`, truth testing, `dict.get`,
 * `dict[key]`, `round(x, 1)`, and the exceptions these raise.
 */
module PyValues {
  import opened Wrappers
  import opened PyText

  /** A JSON scalar as Python sees it. A finite float is modelled by its exact value. */
  datatype Value =
    | PyNone
    | PyBool(b: bool)
    | PyInt(i: int)
    | PyFloat(x: real)
    | PyStr(s: string)

  /** The built-in exceptions the core raises or catches. */
  datatype PyException =
    | KeyError(key: string)
    | ValueError(msg: string)
    | TypeError(msg: string)
    | AttributeError(msg: string)
    | IndexError(msg: string)
  {
    /** `str(e)`: a KeyError shows the repr of its key, the others their message. */
    function Text(): string {
      if KeyError? then Repr(key) else msg
    }
  }

  /** `repr(s)` for a string without quotes or backslashes in it. */
  function Repr(s: string): string {
    "'" + s + "'"
  }

  function TypeName(v: Value): string {
    match v
    case PyNone => "NoneType"
    case PyBool(_) => "bool"
    case PyInt(_) => "int"
    case PyFloat(_) => "float"
    case PyStr(_) => "str"
  }

  /** Python truth testing (`not v` is `!Truthy(v)`). */
  predicate Truthy(v: Value) {
    match v
    case PyNone => false
    case PyBool(b) => b
    case PyInt(i) => i != 0
    case PyFloat(x) => x != 0.0
    case PyStr(s) => s != []
  }

  /** The number a value stands for in arithmetic and comparisons (bool is an int subclass). */
  function Number(v: Value): (r: Option<real>)
    ensures r.Some? <==> (v.PyBool? || v.PyInt? || v.PyFloat?)
    ensures v.PyBool? ==> r == Some(if v.b then 1.0 else 0.0)
    ensures v.PyInt? ==> r == Some(v.i as real)
    ensures v.PyFloat? ==> r == Some(v.x)
  {
    match v
    case PyBool(b) => Some(if b then 1.0 else 0.0)
    case PyInt(i) => Some(i as real)
    case PyFloat(x) => Some(x)
    case _ => None
  }

  /** Conversion of a float to int: truncation toward zero. */
  function Trunc(x: real): (r: int)
    ensures x >= 0.0 ==> r as real <= x < r as real + 1.0
    ensures x < 0.0 ==> r as real - 1.0 < x <= r as real
  {
    if x >= 0.0 then x.Floor else -((-x).Floor)
  }

  /** `float(v)`. */
  function ToFloat(v: Value): (r: Result<real, PyException>)
    ensures v.PyStr? ==> (r.Ok? <==> ParseFloat(v.s).Some?)
    ensures r.Ok? && v.PyStr? ==> r.value == ParseFloat(v.s).value
    ensures !v.PyStr? ==> (r.Ok? <==> Number(v).Some?) && (r.Ok? ==> r.value == Number(v).value)
  {
    match v
    case PyNone => Fail(TypeError("float() argument must be a string or a real number, not 'NoneType'"))
    case PyStr(s) =>
      (match ParseFloat(s)
       case Some(x) => Ok(x)
       case None => Fail(ValueError("could not convert string to float: " + Repr(s))))
    case _ => Ok(Number(v).value)
  }

  /** `int(v)`. */
  function ToInt(v: Value): (r: Result<int, PyException>)
    ensures v.PyStr? ==> (r.Ok? <==> ParseInt(v.s).Some?)
    ensures r.Ok? && v.PyStr? ==> r.value == ParseInt(v.s).value
    ensures r.Ok? && v.PyFloat? ==> r.value == Trunc(v.x)
    ensures r.Ok? <==> !v.PyNone? && (v.PyStr? ==> ParseInt(v.s).Some?)
    ensures v.PyBool? ==> r == Ok(if v.b then 1 else 0)
    ensures v.PyInt? ==> r == Ok(v.i)
  {
    match v
    case PyNone => Fail(TypeError("int() argument must be a string, a bytes-like object or a real number, not 'NoneType'"))
    case PyBool(b) => Ok(if b then 1 else 0)
    case PyInt(i) => Ok(i)
    case PyFloat(x) => Ok(Trunc(x))
    case PyStr(s) =>
      match ParseInt(s)
      case Some(n) => Ok(n)
      case None => Fail(ValueError("invalid literal for int() with base 10: " + Repr(s)))
  }

  /** `d.get(key, default)`. */
  function Get(d: map<string, Value>, key: string, default: Value): (v: Value)
    ensures key in d ==> v == d[key]
    ensures key !in d ==> v == default
  {
    if key in d then d[key] else default
  }

  /** `d[key]`. */
  function Lookup(d: map<string, Value>, key: string): (r: Result<Value, PyException>)
    ensures r.Ok? <==> key in d
    ensures r.Ok? ==> r.value == d[key]
    ensures r.Fail? ==> r.error == KeyError(key)
  {
    if key in d then Ok(d[key]) else Fail(KeyError(key))
  }

  /** Round to the nearest integer, ties to even (Python's `round`). */
  function RoundHalfEven(x: real): (n: int)
    ensures -0.5 <= x - n as real <= 0.5
    ensures (x - n as real == 0.5 || n as real - x == 0.5) ==> n % 2 == 0
  {
    var f := x.Floor;
    var frac := x - f as real;
    if frac < 0.5 then f
    else if frac > 0.5 then f + 1
    else if f % 2 == 0 then f
    else f + 1
  }

  /** `round(x, 1)`. */
  function Round1(x: real): (r: real)
    ensures -0.05 <= x - r <= 0.05
    ensures (r * 10.0).Floor as real == r * 10.0
  {
    RoundHalfEven(x * 10.0) as real / 10.0
  }

  /** A value with at most one decimal is left as it is by `round(x, 1)`. */
  lemma Round1Exact(n: int)
    ensures Round1(n as real / 10.0) == n as real / 10.0
  {
    var x := n as real / 10.0;
    assert x * 10.0 == n as real;
    assert (n as real).Floor == n;
  }

  /** Python's `int(str(i))` and `float(str(i))` give back `i`. */
  lemma ConvertIntText(i: int)
    ensures ToInt(PyStr(IntText(i))) == Ok(i)
    ensures ToFloat(PyStr(IntText(i))) == Ok(i as real)
  {
    ParseIntText(i);
    ParseFloatText(i);
  }
}
