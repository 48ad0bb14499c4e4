/**
 * The four string accessors. Each reads one variable and resolves it with
 * `envProcess`. The default and error modes test the raw value, before it is
 * resolved, for emptiness.
 */
module StringAccessors {
  import opened Wrappers
  import opened GoStrings
  import opened Environ
  import opened Process

  /** `GetString`: the resolved value, "" for an unset variable. */
  function GetString(deobfuscate: Deobfuscator, env: Environment, key: string): (r: string)
    ensures key !in env ==> r == ""
    ensures key in env && IsPlain(TrimSpace(env[key])) ==> r == TrimSpace(env[key])
  {
    EnvProcess(deobfuscate, Getenv(env, key))
  }

  /** `GetStringOrDefault`: the default exactly when the raw value is empty. */
  function GetStringOrDefault(deobfuscate: Deobfuscator, env: Environment, key: string, defaultValue: string): (r: string)
    ensures Getenv(env, key) == "" ==> r == defaultValue
    ensures Getenv(env, key) != "" ==> r == GetString(deobfuscate, env, key)
  {
    var value := Getenv(env, key);
    if value == "" then defaultValue else EnvProcess(deobfuscate, value)
  }

  /** `GetStringOrError`: not found exactly when the raw value is empty. */
  function GetStringOrError(deobfuscate: Deobfuscator, env: Environment, key: string): (r: Fallible<string>)
    ensures r.err.Some? <==> Getenv(env, key) == ""
    ensures r.err.Some? ==> r == Fallible("", Some(NotFound(key)))
    ensures r.err.None? ==> r.value == GetString(deobfuscate, env, key)
  {
    var value := Getenv(env, key);
    if value == "" then Fallible("", Some(NotFound(key)))
    else Fallible(EnvProcess(deobfuscate, value), None)
  }

  /** `GetStringOrPanic`: panics exactly when the error mode reports an error. */
  function GetStringOrPanic(deobfuscate: Deobfuscator, env: Environment, key: string): (r: Outcome<string>)
    ensures r.Panics? <==> GetStringOrError(deobfuscate, env, key).err.Some?
    ensures r.Panics? ==> r.err == NotFound(key)
    ensures r.Returns? ==> r.value == GetStringOrError(deobfuscate, env, key).value
  {
    var result := GetStringOrError(deobfuscate, env, key);
    if result.err.Some? then Panics(NotFound(key)) else Returns(result.value)
  }

  /**
   * A whitespace-only raw value counts as set: the default and error modes
   * return "" without an error and do not fall back to the default.
   */
  lemma WhitespaceOnlyIsSet(deobfuscate: Deobfuscator, env: Environment, key: string, defaultValue: string)
    requires key in env && env[key] != "" && AllSpace(env[key])
    ensures GetString(deobfuscate, env, key) == ""
    ensures GetStringOrDefault(deobfuscate, env, key, defaultValue) == ""
    ensures GetStringOrError(deobfuscate, env, key) == Fallible("", None)
    ensures GetStringOrPanic(deobfuscate, env, key) == Returns("")
  {
    TrimSpaceEmpty(env[key]);
  }

  /** A set value that needs no trimming and has no prefix comes back unchanged from every mode. */
  lemma PlainValueEveryMode(deobfuscate: Deobfuscator, env: Environment, key: string, defaultValue: string)
    requires key in env && env[key] != ""
    requires !IsSpace(env[key][0]) && !IsSpace(env[key][|env[key]| - 1])
    requires IsPlain(env[key])
    ensures GetString(deobfuscate, env, key) == env[key]
    ensures GetStringOrDefault(deobfuscate, env, key, defaultValue) == env[key]
    ensures GetStringOrError(deobfuscate, env, key) == Fallible(env[key], None)
    ensures GetStringOrPanic(deobfuscate, env, key) == Returns(env[key])
  {
    TrimSpaceKeeps(env[key]);
  }

  /** An unset variable: "" from the zero mode, the default, a not-found error, a panic. */
  lemma UnsetEveryMode(deobfuscate: Deobfuscator, env: Environment, key: string, defaultValue: string)
    requires key !in env
    ensures GetString(deobfuscate, env, key) == ""
    ensures GetStringOrDefault(deobfuscate, env, key, defaultValue) == defaultValue
    ensures GetStringOrError(deobfuscate, env, key) == Fallible("", Some(NotFound(key)))
    ensures GetStringOrPanic(deobfuscate, env, key) == Panics(NotFound(key))
  {
  }
}
