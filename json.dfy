/** The values Flask's `request.json` hands to the simulators, and the few
    Python operations the simulators apply to them: `==`, `dict.get`,
    truthiness and `str()`. */
module JsonValue {
  import Text

  /** A decoded JSON document: `null`, booleans, integers, other numbers,
      strings, arrays and objects (Python `None`, `bool`, `int`, `float`,
      `str`, `list`, `dict`). */
  datatype Json =
    | Null
    | Bool(b: bool)
    | Int(i: int)
    | Float(r: real)
    | Str(s: string)
    | Arr(items: seq<Json>)
    | Obj(fields: map<string, Json>)

  /** The numeric value Python compares for `bool`, `int` and `float`
      (`True == 1`, `1 == 1.0`). */
  predicate IsNumber(j: Json) { j.Bool? || j.Int? || j.Float? }

  function NumberValue(j: Json): real
    requires IsNumber(j)
  {
    match j
    case Bool(b) => if b then 1.0 else 0.0
    case Int(i) => i as real
    case Float(r) => r
  }

  /** Python's `==` between two decoded JSON values. */
  predicate PyEq(a: Json, b: Json)
    decreases a
  {
    if IsNumber(a) && IsNumber(b) then NumberValue(a) == NumberValue(b)
    else match (a, b)
      case (Null, Null) => true
      case (Str(x), Str(y)) => x == y
      case (Arr(xs), Arr(ys)) =>
        |xs| == |ys| && forall i :: 0 <= i < |xs| ==> PyEq(xs[i], ys[i])
      case (Obj(m), Obj(n)) =>
        m.Keys == n.Keys && forall k :: k in m ==> PyEq(m[k], n[k])
      case _ => false
  }

  /** Every value of this model equals itself. Numbers are exact reals, so
      Python's `NaN`, which is not `==` to itself, has no counterpart. */
  lemma {:induction false} PyEqReflexive(a: Json)
    ensures PyEq(a, a)
  {
    match a
    case Arr(xs) =>
      forall i | 0 <= i < |xs| ensures PyEq(xs[i], xs[i]) {
        PyEqReflexive(xs[i]);
      }
    case Obj(m) =>
      forall k | k in m ensures PyEq(m[k], m[k]) {
        PyEqReflexive(m[k]);
      }
    case _ =>
  }

  /** `d.get(key, default)` on a dict. */
  function Get(d: map<string, Json>, key: string, default: Json): (r: Json)
    ensures key in d ==> r == d[key]
    ensures key !in d ==> r == default
  {
    if key in d then d[key] else default
  }

  /** Python truthiness: `None`, `False`, zero, and empty strings,
      lists and dicts are false. */
  predicate Truthy(j: Json) {
    match j
    case Null => false
    case Bool(b) => b
    case Int(i) => i != 0
    case Float(r) => r != 0.0
    case Str(s) => s != []
    case Arr(xs) => xs != []
    case Obj(m) => m != map[]
  }

  /** Only `list` and `dict` are unhashable (usable as a dict key fails). */
  predicate Hashable(j: Json) { !j.Arr? && !j.Obj? }

  /** Python's `str(j)` as used by an f-string. Strings, `None`, booleans
      and integers are written out; `render` stands for Python's rendering
      of floats, lists and dicts. */
  function PyStr(j: Json, render: Json -> string): (r: string)
    ensures j.Str? ==> r == j.s
  {
    match j
    case Str(s) => s
    case Null => "None"
    case Bool(b) => if b then "True" else "False"
    case Int(i) => Text.IntToDecimal(i)
    case _ => render(j)
  }
}
