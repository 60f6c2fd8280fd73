/**
 * String-keyed lookups as the handlers perform them on environment
 * variables and query parameters, and the two Python idioms applied to
 * the looked-up values: `x or y` and f-string formatting of `str | None`.
 */
module Environment {
  import opened Wrappers

  /** Environment variables, or query parameters, by name (one value per name). */
  type Env = map<string, string>

  /** `os.getenv(key)` / `query_params.get(key)`: `None` when the name is absent. */
  function Lookup(env: Env, key: string): Option<string>
  {
    if key in env then Some(env[key]) else None
  }

  /** Python's `x or y` on two `str | None` values: `x` unless it is `None` or `""`. */
  function PyOr(x: Option<string>, y: Option<string>): Option<string>
  {
    if x.Some? && x.value != [] then x else y
  }

  /** `f"{x}"` for `x: str | None`: `None` formats as the four letters `None`. */
  function PyFormat(x: Option<string>): string
  {
    match x
    case Some(v) => v
    case None => "None"
  }
}
