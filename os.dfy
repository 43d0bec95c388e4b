/** The part of Go's `os` package the loader and the getters use, on Unix
    (assumed from Go's documented behaviour; the library is not part of this
    model). The process environment is a map from keys to values. */
module Os {
  import opened Wrappers

  /** When `os.Setenv(key, value)` succeeds: the key is non-empty and holds
      neither `=` nor NUL, and the value holds no NUL. */
  predicate SetenvOk(key: string, value: string)
    ensures SetenvOk(key, value) ==> key != "" && '=' !in key
  {
    |key| > 0 && '=' !in key && '\0' !in key && '\0' !in value
  }

  /** An environment the process can have: every entry is one `Setenv`
      would accept. */
  predicate ValidEnv(env: map<string, string>) {
    forall k :: k in env ==> SetenvOk(k, env[k])
  }

  /** `os.LookupEnv(key)`: the value and whether the key is set. Go's Unix
      `Getenv` reports an empty key as not set, whatever the table holds. */
  function LookupEnv(env: map<string, string>, key: string): (r: Option<string>)
    ensures r.Some? <==> key != "" && key in env
    ensures r.Some? ==> r.value == env[key]
  {
    if |key| == 0 || key !in env then None else Some(env[key])
  }

  /** What `Setenv` accepts, `LookupEnv` reads back, and every other key
      keeps its value. */
  lemma SetenvThenLookupEnv(env: map<string, string>, key: string, value: string, other: string)
    requires SetenvOk(key, value)
    ensures LookupEnv(env[key := value], key) == Some(value)
    ensures other != key ==> LookupEnv(env[key := value], other) == LookupEnv(env, other)
    ensures ValidEnv(env) ==> ValidEnv(env[key := value])
  {
  }
}
