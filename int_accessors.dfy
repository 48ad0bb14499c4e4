/**
 * The four integer accessors: the resolved value, parsed with `strconv.Atoi`.
 * Unlike the string accessors, they test the resolved value for emptiness,
 * so a whitespace-only value counts as not found.
 */
module IntAccessors {
  import opened Wrappers
  import opened GoStrings
  import opened GoStrconv
  import opened Environ
  import opened Process
  import opened StringAccessors

  /** `GetIntOrError`: not found for an empty resolved value, unparsable unless `Atoi` accepts it. */
  function GetIntOrError(deobfuscate: Deobfuscator, env: Environment, key: string): (r: Fallible<int>)
    ensures r.err == Some(NotFound(key)) <==> GetString(deobfuscate, env, key) == ""
    ensures r.err.None? <==> GetString(deobfuscate, env, key) != "" && Atoi(GetString(deobfuscate, env, key)).Ok?
    ensures r.err.None? ==> r.value == IntegerValue(GetString(deobfuscate, env, key))
    ensures r.err.Some? ==> r.value == 0
    ensures r.err.Some? && GetString(deobfuscate, env, key) != "" ==>
              r.err == Some(Unparsable(key, GetString(deobfuscate, env, key)))
  {
    var valueStr := GetString(deobfuscate, env, key);
    if valueStr == "" then Fallible(0, Some(NotFound(key)))
    else
      match Atoi(valueStr)
      case Err(_) => Fallible(0, Some(Unparsable(key, valueStr)))
      case Ok(value) => Fallible(value, None)
  }

  /** `GetInt`: the parsed value, 0 on any error. */
  function GetInt(deobfuscate: Deobfuscator, env: Environment, key: string): (r: int)
    ensures GetIntOrError(deobfuscate, env, key).err.Some? ==> r == 0
    ensures GetIntOrError(deobfuscate, env, key).err.None? ==> r == GetIntOrError(deobfuscate, env, key).value
  {
    var result := GetIntOrError(deobfuscate, env, key);
    if result.err.Some? then 0 else result.value
  }

  /** `GetIntOrDefault`: the parsed value, the default on any error. */
  function GetIntOrDefault(deobfuscate: Deobfuscator, env: Environment, key: string, defaultValue: int): (r: int)
    ensures GetIntOrError(deobfuscate, env, key).err.Some? ==> r == defaultValue
    ensures GetIntOrError(deobfuscate, env, key).err.None? ==> r == GetIntOrError(deobfuscate, env, key).value
  {
    var result := GetIntOrError(deobfuscate, env, key);
    if result.err.Some? then defaultValue else result.value
  }

  /** `GetIntOrPanic`: panics with the error of the error mode, if any. */
  function GetIntOrPanic(deobfuscate: Deobfuscator, env: Environment, key: string): (r: Outcome<int>)
    ensures r.Panics? <==> GetIntOrError(deobfuscate, env, key).err.Some?
    ensures r.Panics? ==> Some(r.err) == GetIntOrError(deobfuscate, env, key).err
    ensures r.Returns? ==> r.value == GetIntOrError(deobfuscate, env, key).value
  {
    Panicking(GetIntOrError(deobfuscate, env, key))
  }

  /** A whitespace-only value is not found, although the string accessors treat it as set. */
  lemma WhitespaceOnlyNotFound(deobfuscate: Deobfuscator, env: Environment, key: string)
    requires key in env && AllSpace(env[key])
    ensures GetIntOrError(deobfuscate, env, key) == Fallible(0, Some(NotFound(key)))
  {
    TrimSpaceEmpty(env[key]);
  }

  /**
   * Every 64-bit integer, written in decimal and padded with any whitespace,
   * reads back as itself in every mode.
   */
  lemma PaddedIntegerReadsBack(deobfuscate: Deobfuscator, env: Environment, key: string, w1: string, v: int, w2: string, defaultValue: int)
    requires MinInt64 <= v <= MaxInt64
    requires AllSpace(w1) && AllSpace(w2)
    requires key in env && env[key] == w1 + FormatInt(v) + w2
    ensures GetIntOrError(deobfuscate, env, key) == Fallible(v, None)
    ensures GetInt(deobfuscate, env, key) == v
    ensures GetIntOrDefault(deobfuscate, env, key, defaultValue) == v
    ensures GetIntOrPanic(deobfuscate, env, key) == Returns(v)
  {
    var s := FormatInt(v);
    assert GetString(deobfuscate, env, key) == s by {
      EnvProcessPadded(deobfuscate, w1, s, w2);
      FormatIntResolvesToItself(deobfuscate, v);
    }
    AtoiFormatInt(v);
  }

  lemma FormatIntResolvesToItself(deobfuscate: Deobfuscator, v: int)
    ensures EnvProcess(deobfuscate, FormatInt(v)) == FormatInt(v)
  {
    var s := FormatInt(v);
    assert s[0] == '-' || IsDigit(s[0]);
    assert IsDigit(s[|s| - 1]);
    TrimSpaceKeeps(s);
    assert IsPlain(s) by {
      assert s[0] != 'b' && s[0] != 'o';
    }
    ResolveTrimmedPlain(deobfuscate, s);
  }

  /** A value that is not an optional sign followed by digits is unparsable, and `GetInt` gives 0. */
  lemma NonNumeralUnparsable(deobfuscate: Deobfuscator, env: Environment, key: string)
    requires GetString(deobfuscate, env, key) != "" && !IsIntegerSyntax(GetString(deobfuscate, env, key))
    ensures GetIntOrError(deobfuscate, env, key) == Fallible(0, Some(Unparsable(key, GetString(deobfuscate, env, key))))
    ensures GetInt(deobfuscate, env, key) == 0
  {
  }

  /** "123" reads as 123. */
  lemma IntExampleNumber(deobfuscate: Deobfuscator, env: Environment, key: string)
    requires key in env && env[key] == "123"
    ensures GetIntOrError(deobfuscate, env, key) == Fallible(123, None)
  {
    var v := env[key];
    assert v[0] != 'b' && v[0] != 'o';
    OtherInitialIsPlain([v[0]], v[1..]);
    assert [v[0]] + v[1..] == v;
    PlainValueEveryMode(deobfuscate, env, key, "");
    AtoiAcceptsExamples();
  }

  /** "abc" is unparsable. */
  lemma IntExampleWord(deobfuscate: Deobfuscator, env: Environment, key: string)
    requires key in env && env[key] == "abc"
    ensures GetIntOrError(deobfuscate, env, key) == Fallible(0, Some(Unparsable(key, "abc")))
  {
    var v := env[key];
    assert v[0] != 'b' && v[0] != 'o';
    OtherInitialIsPlain([v[0]], v[1..]);
    assert [v[0]] + v[1..] == v;
    PlainValueEveryMode(deobfuscate, env, key, "");
    AtoiRejectsExamples();
  }
}
