/**
 * The process environment as an explicit value, and the error and panic
 * outcomes the accessors report.
 */
module Environ {
  import opened Wrappers

  /** The environment: variable names to values. */
  type Environment = map<string, string>

  /** `os.Getenv`: an unset variable reads as the empty string. */
  function Getenv(env: Environment, key: string): (v: string)
    ensures key in env ==> v == env[key]
    ensures key !in env ==> v == ""
  {
    if key in env then env[key] else ""
  }

  /** The two errors an accessor reports, with the data their messages quote. */
  datatype EnvError =
    | NotFound(key: string)
    | Unparsable(key: string, value: string)

  /** A Go `(value, error)` pair: `err` is `None` for a nil error. */
  datatype Fallible<T> = Fallible(value: T, err: Option<EnvError>)

  /** What an `...OrPanic` accessor does: return a value, or panic. */
  datatype Outcome<T> = Returns(value: T) | Panics(err: EnvError)

  /** What an `...OrPanic` accessor makes of its error mode's answer: panic with the error, if any. */
  function Panicking<T>(result: Fallible<T>): (r: Outcome<T>)
    ensures r.Panics? <==> result.err.Some?
    ensures r.Panics? ==> Some(r.err) == result.err
    ensures r.Returns? ==> r.value == result.value
  {
    if result.err.Some? then Panics(result.err.value) else Returns(result.value)
  }
}
