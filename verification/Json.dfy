/**
 * A decoded JSON value as the webhook handlers see it (Python's `dict`,
 * `list`, `str`, `int`, `bool` and `None`), with the few Python operations
 * the handlers apply to it: truthiness, `dict.get`, `(x or {})` and
 * iteration in a `for` loop.
 */
module Json {
  import opened Wrappers
  import opened PyStr

  /** Floating-point numbers are not modelled; `Num` stands for a JSON integer. */
  datatype Json =
    | Null
    | Bool(b: bool)
    | Num(n: int)
    | Str(s: string)
    | Arr(items: seq<Json>)
    | Obj(fields: map<string, Json>)

  const EmptyObj: Json := Obj(map[])

  /** Python's `bool(x)`: `None`, `False`, `0`, `""`, `[]` and `{}` are false, everything else true. */
  predicate Truthy(v: Json) {
    match v
    case Null => false
    case Bool(b) => b
    case Num(n) => n != 0
    case Str(s) => s != []
    case Arr(xs) => xs != []
    case Obj(m) => m != map[]
  }

  /** `d.get(key, default)` on a `dict`. */
  function Get(d: map<string, Json>, key: string, default: Json): Json
  {
    if key in d then d[key] else default
  }

  /**
   * `x.get(key, default)` on any value: only a `dict` has `.get`, anything
   * else raises `AttributeError` (`None`).
   */
  function GetAny(x: Json, key: string, default: Json): Option<Json>
  {
    match x
    case Obj(m) => Some(Get(m, key, default))
    case _ => None
  }

  /** `(x or {})`: a false value becomes `{}`, a true value is kept. */
  function OrEmpty(x: Json): Json
  {
    if Truthy(x) then x else EmptyObj
  }

  /**
   * What `for e in x:` visits when the loop body calls `e.get(...)` first:
   * a list gives its elements; an empty `str` or `dict` gives nothing; a
   * non-empty `str` or `dict` gives characters or keys, on which the first
   * `.get` raises; `None`, numbers and booleans are not iterable. `None`
   * stands for "raises before any element is handled".
   */
  function Iterate(x: Json): (r: Option<seq<Json>>)
    ensures x.Arr? ==> r == Some(x.items)
    ensures r.Some? && !x.Arr? ==> r == Some([])
    ensures r.None? <==> !x.Arr? && (Truthy(x) || x.Null? || x.Bool? || x.Num?)
  {
    match x
    case Arr(xs) => Some(xs)
    case Str(s) => if s == [] then Some([]) else None
    case Obj(m) => if m == map[] then Some([]) else None
    case _ => None
  }
}
