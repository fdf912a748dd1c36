/** The process environment as tosh sees it through getenv and setenv. */
module Environment {
  import opened Text

  datatype Option<T> = None | Some(value: T)

  type Env = map<String, String>

  /** getenv: the value of `name`, or None (a NULL pointer) when unset. */
  function Getenv(env: Env, name: String): Option<String>
  {
    if name in env then Some(env[name]) else None
  }

  /** The HOME variable. */
  function Home(env: Env): Option<String>
  {
    Getenv(env, "HOME")
  }
}
