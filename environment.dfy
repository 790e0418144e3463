/**
 * The process environment as a map from names to values, with the POSIX
 * `getenv` and `setenv(name, value, 1)` semantics the resolver relies on, and
 * the COMSPEC probe that decides whether the host is a native Windows shell.
 */
module Environment {
  import opened Base

  type Env = map<string, string>

  /** The errno `setenv` reports for an invalid name (POSIX EINVAL on Linux and the BSDs). */
  const EINVAL: int := 22

  /** `getenv`: the value of a variable that is set, even when that value is empty. */
  function GetEnvironmentVariable(env: Env, key: string): (r: Option<string>)
    ensures r.Some? <==> key in env
    ensures r.Some? ==> r.value == env[key]
  {
    if key in env then Some(env[key]) else None
  }

  /** Windows is detected by the presence of COMSPEC; its value is never inspected. */
  function DetectWindowsEnvironment(env: Env): (windows: bool)
    ensures windows <==> "COMSPEC" in env
  {
    GetEnvironmentVariable(env, "COMSPEC").Some?
  }

  /** A name `setenv` accepts: non-empty and free of '='. */
  predicate ValidName(key: string)
  {
    key != "" && '=' !in key
  }

  datatype SetResult = Updated(env: Env) | Errno(code: int)

  /** `setenv(key, value, 1)`: overwrites an existing value, refuses an invalid name with EINVAL. */
  function SetEnv(env: Env, key: string, value: string): (r: SetResult)
    ensures r.Updated? <==> ValidName(key)
    ensures r.Errno? ==> r.code == EINVAL
    ensures r.Updated? ==> r.env.Keys == env.Keys + {key} && r.env[key] == value
    ensures r.Updated? ==> forall k :: k in env && k != key ==> r.env[k] == env[k]
  {
    if key == "" || '=' in key then Errno(EINVAL) else Updated(env[key := value])
  }
}
