/**
 * The four boolean accessors. The error mode trims the resolved value, then
 * tries in turn the truthy and falsy tokens, the numeric rule (a number that
 * matches the strict pattern and that `strconv.ParseFloat` accepts is true
 * exactly when it is positive) and finally `strconv.ParseBool`.
 */
module BoolAccessors {
  import opened Wrappers
  import opened GoStrings
  import opened GoStrconv
  import opened NumericPattern
  import opened FloatParse
  import opened Environ
  import opened Process
  import opened StringAccessors
  import opened IntAccessors
  import opened BoolTokens

  /**
   * The numeric rule: `None` when the value does not match the pattern or
   * `ParseFloat` fails, otherwise whether the parsed float64 is positive.
   */
  function NumericTruth(t: string): (r: Option<bool>)
    ensures Scan(t).None? ==> r.None?
    ensures Scan(t).Some? ==> (r.Some? <==> ParseFloat(Scan(t).value).Ok?)
    ensures r.Some? ==> (r.value <==> ParseFloat(Scan(t).value) == Ok(Positive))
    ensures r == Some(true) ==> ExactSign(Scan(t).value) == Positive
    ensures r == Some(false) ==>
              ExactSign(Scan(t).value) != Positive || Underflows(Mantissa(Scan(t).value), Scale(Scan(t).value))
  {
    match Scan(t)
    case None => None
    case Some(n) =>
      match ParseFloat(n)
      case Err(_) => None
      case Ok(sign) => Some(sign == Positive)
  }

  /**
   * What the error mode makes of a trimmed, non-empty value: the tokens
   * first, then the numeric rule, then `strconv.ParseBool`; `None` when all
   * three fail. ParseBool adds nothing, as every spelling it accepts is a
   * token.
   */
  function Classify(t: string): (r: Option<bool>)
    ensures t in TrueTokens ==> r == Some(true)
    ensures t in FalseTokens ==> r == Some(false)
    ensures t !in TrueTokens && t !in FalseTokens ==> r == NumericTruth(t)
  {
    if t in TrueTokens then Some(true)
    else if t in FalseTokens then Some(false)
    else
      match NumericTruth(t)
      case Some(positive) => Some(positive)
      case None =>
        ParseBoolWithinDisplays(t);
        match ParseBool(t)
        case Err(_) => None
        case Ok(value) => Some(value)
  }

  /** `GetBoolOrError`: not found for an empty trimmed value, unparsable when `Classify` fails. */
  function GetBoolOrError(deobfuscate: Deobfuscator, env: Environment, key: string): (r: Fallible<bool>)
    ensures var t := TrimSpace(GetString(deobfuscate, env, key));
      && (r.err == Some(NotFound(key)) <==> t == "")
      && (r.err.None? <==> t != "" && Classify(t).Some?)
      && (r.err.None? ==> r.value == Classify(t).value)
      && (r.err.Some? ==> r.value == false)
      && (r.err.Some? && t != "" ==> r.err == Some(Unparsable(key, t)))
  {
    var valueStr := TrimSpace(GetString(deobfuscate, env, key));
    if valueStr == "" then Fallible(false, Some(NotFound(key)))
    else
      match Classify(valueStr)
      case None => Fallible(false, Some(Unparsable(key, valueStr)))
      case Some(value) => Fallible(value, None)
  }

  /** `GetBool`: the value, false on any error. */
  function GetBool(deobfuscate: Deobfuscator, env: Environment, key: string): (r: bool)
    ensures GetBoolOrError(deobfuscate, env, key).err.Some? ==> r == false
    ensures GetBoolOrError(deobfuscate, env, key).err.None? ==> r == GetBoolOrError(deobfuscate, env, key).value
  {
    var result := GetBoolOrError(deobfuscate, env, key);
    if result.err.Some? then false else result.value
  }

  /** `GetBoolOrDefault`: the value, the default on any error. */
  function GetBoolOrDefault(deobfuscate: Deobfuscator, env: Environment, key: string, defaultValue: bool): (r: bool)
    ensures GetBoolOrError(deobfuscate, env, key).err.Some? ==> r == defaultValue
    ensures GetBoolOrError(deobfuscate, env, key).err.None? ==> r == GetBoolOrError(deobfuscate, env, key).value
  {
    var result := GetBoolOrError(deobfuscate, env, key);
    if result.err.Some? then defaultValue else result.value
  }

  /** `GetBoolOrPanic`: panics with the error of the error mode, if any. */
  function GetBoolOrPanic(deobfuscate: Deobfuscator, env: Environment, key: string): (r: Outcome<bool>)
    ensures r.Panics? <==> GetBoolOrError(deobfuscate, env, key).err.Some?
    ensures r.Panics? ==> Some(r.err) == GetBoolOrError(deobfuscate, env, key).err
    ensures r.Returns? ==> r.value == GetBoolOrError(deobfuscate, env, key).value
  {
    Panicking(GetBoolOrError(deobfuscate, env, key))
  }

  /** An unset, empty or whitespace-only variable is not found: false, the default, or a panic. */
  lemma BlankIsNotFound(deobfuscate: Deobfuscator, env: Environment, key: string, defaultValue: bool)
    requires key !in env || AllSpace(env[key])
    ensures GetBoolOrError(deobfuscate, env, key) == Fallible(false, Some(NotFound(key)))
    ensures GetBool(deobfuscate, env, key) == false
    ensures GetBoolOrDefault(deobfuscate, env, key, defaultValue) == defaultValue
    ensures GetBoolOrPanic(deobfuscate, env, key) == Panics(NotFound(key))
  {
    assert GetString(deobfuscate, env, key) == "" by {
      if key in env {
        TrimSpaceEmpty(env[key]);
        assert IsPlain("");
      }
    }
    TrimSpaceKeeps("");
  }

  /** The numeric rule answers: the pattern matches and `ParseFloat` accepts the number. */
  predicate IsAcceptedNumeral(t: string) {
    Scan(t).Some? && WellFormed(Scan(t).value) && ParseFloat(Scan(t).value).Ok?
  }

  /**
   * A trimmed value is accepted exactly when it is a token or a numeral that
   * `ParseFloat` accepts: the `ParseBool` fallback never adds a success.
   */
  lemma ClassifySucceeds(t: string)
    ensures Classify(t).Some? <==> t in TrueTokens || t in FalseTokens || IsAcceptedNumeral(t)
  {
    if t !in TrueTokens && t !in FalseTokens {
      assert Classify(t) == NumericTruth(t);
    }
  }

  /** The error mode succeeds exactly on a non-blank token or accepted numeral. */
  lemma SucceedsOnTokenOrNumeral(deobfuscate: Deobfuscator, env: Environment, key: string)
    ensures var t := TrimSpace(GetString(deobfuscate, env, key));
      GetBoolOrError(deobfuscate, env, key).err.None? <==>
        t != "" && (t in TrueTokens || t in FalseTokens || IsAcceptedNumeral(t))
  {
    ClassifySucceeds(TrimSpace(GetString(deobfuscate, env, key)));
  }

  /** Whitespace around the raw value never changes the outcome. */
  lemma PaddingIrrelevant(deobfuscate: Deobfuscator, env: Environment, key: string, w1: string, v: string, w2: string)
    requires AllSpace(w1) && AllSpace(w2)
    requires key in env && env[key] == w1 + v + w2
    ensures GetBoolOrError(deobfuscate, env, key) == GetBoolOrError(deobfuscate, env[key := v], key)
  {
    EnvProcessPadded(deobfuscate, w1, v, w2);
  }

  /**
   * A set value without surrounding white space or a prefix is classified
   * as it stands: `Classify` decides the outcome, and a value it rejects is
   * unparsable.
   */
  lemma ReadsByClassify(deobfuscate: Deobfuscator, env: Environment, key: string, v: string)
    requires key in env && env[key] == v
    requires v != "" && !IsSpace(v[0]) && !IsSpace(v[|v| - 1]) && IsPlain(v)
    ensures Classify(v).Some? ==> GetBoolOrError(deobfuscate, env, key) == Fallible(Classify(v).value, None)
    ensures Classify(v).None? ==> GetBoolOrError(deobfuscate, env, key) == Fallible(false, Some(Unparsable(key, v)))
  {
    TrimSpaceKeeps(v);
    ResolveTrimmedPlain(deobfuscate, v);
    assert GetString(deobfuscate, env, key) == v;
  }

  /** Values shorter than both prefixes carry neither. */
  lemma ShortIsPlain(v: string)
    requires |v| < |Base64Prefix| && |v| < |ObfuscatedPrefix|
    ensures IsPlain(v)
  {
  }

  /** Tokens are set as they stand: non-empty, trimmed, with no prefix. */
  lemma TokenIsPlain(token: string)
    requires token in TrueTokens || token in FalseTokens
    ensures token != "" && !IsSpace(token[0]) && !IsSpace(token[|token| - 1]) && IsPlain(token)
  {
    assert 0 < |token| <= 5 && !IsSpace(token[0]) && !IsSpace(token[|token| - 1]);
    ShortIsPlain(token);
  }

  /** Every truthy token, with any whitespace around it, reads as true. */
  lemma TruthyTokenIsTrue(deobfuscate: Deobfuscator, env: Environment, key: string, w1: string, token: string, w2: string)
    requires token in TrueTokens && AllSpace(w1) && AllSpace(w2)
    requires key in env && env[key] == w1 + token + w2
    ensures GetBoolOrError(deobfuscate, env, key) == Fallible(true, None)
    ensures GetBool(deobfuscate, env, key) && GetBoolOrPanic(deobfuscate, env, key) == Returns(true)
  {
    PaddingIrrelevant(deobfuscate, env, key, w1, token, w2);
    TokenIsPlain(token);
    ReadsByClassify(deobfuscate, env[key := token], key, token);
  }

  /** Every falsy token, with any whitespace around it, reads as false. */
  lemma FalsyTokenIsFalse(deobfuscate: Deobfuscator, env: Environment, key: string, w1: string, token: string, w2: string)
    requires token in FalseTokens && AllSpace(w1) && AllSpace(w2)
    requires key in env && env[key] == w1 + token + w2
    ensures GetBoolOrError(deobfuscate, env, key) == Fallible(false, None)
    ensures !GetBool(deobfuscate, env, key) && GetBoolOrPanic(deobfuscate, env, key) == Returns(false)
  {
    PaddingIrrelevant(deobfuscate, env, key, w1, token, w2);
    TokenIsPlain(token);
    ReadsByClassify(deobfuscate, env[key := token], key, token);
  }

  /** A numeral starts with a sign, a digit or a point and ends with a digit or a point. */
  lemma RenderEnds(n: Numeral)
    requires WellFormed(n)
    ensures var s := Render(n);
      && s != ""
      && (s[0] == '+' || s[0] == '-' || s[0] == '.' || IsDigit(s[0]))
      && (s[|s| - 1] == '.' || IsDigit(s[|s| - 1]))
  {
    var s := Render(n);
    var m := MantissaText(n.whole, n.dot, n.frac);
    var e := RenderExponent(n.exponent);
    assert s == n.sign + (m + e);
    if n.whole != "" {
      assert m[0] == n.whole[0];
    }
    if e != "" {
      assert s[|s| - 1] == e[|e| - 1];
    } else if n.frac != "" {
      assert s[|s| - 1] == n.frac[|n.frac| - 1];
    } else if !n.dot {
      assert s[|s| - 1] == n.whole[|n.whole| - 1];
    }
  }

  /** A numeral is set as it stands: no surrounding white space, no prefix. */
  lemma NumeralIsPlain(n: Numeral)
    requires WellFormed(n)
    ensures var s := Render(n); s != "" && !IsSpace(s[0]) && !IsSpace(s[|s| - 1]) && IsPlain(s)
  {
    var s := Render(n);
    RenderEnds(n);
    OtherInitialIsPlain([s[0]], s[1..]);
    assert [s[0]] + s[1..] == s;
  }

  /** The only tokens that are also numerals are "1" and "0", and the numeric rule agrees with both. */
  lemma NumeralTokens(n: Numeral)
    requires WellFormed(n)
    ensures Render(n) in TrueTokens ==> Render(n) == "1" && ExactSign(n) == Positive
    ensures Render(n) in FalseTokens ==> Render(n) == "0" && ExactSign(n) == Zero
  {
    RenderEnds(n);
    if Render(n) == "1" || Render(n) == "0" {
      ScanRender(n);
    }
  }

  /**
   * The numeric rule of bool.go:70-79 on a moderate numeral: one of at most 19
   * significant digits whose decimal exponent lies within -280..280 is true
   * exactly when its value is positive; zero and negative numbers are false.
   */
  lemma ModerateNumeralClassify(n: Numeral)
    requires WellFormed(n) && Mantissa(n) < Pow10(19) && -280 <= Scale(n) <= 280
    ensures Classify(Render(n)) == Some(ExactSign(n) == Positive)
  {
    NumeralTokens(n);
    ScanRender(n);
    ModerateNumeralKeepsSign(n);
  }

  /** The numeric rule through the accessor: a moderate numeral as the raw value. */
  lemma ModerateNumeralSign(deobfuscate: Deobfuscator, env: Environment, key: string, n: Numeral)
    requires WellFormed(n) && Mantissa(n) < Pow10(19) && -280 <= Scale(n) <= 280
    requires key in env && env[key] == Render(n)
    ensures GetBoolOrError(deobfuscate, env, key) == Fallible(ExactSign(n) == Positive, None)
  {
    NumeralIsPlain(n);
    ModerateNumeralClassify(n);
    ReadsByClassify(deobfuscate, env, key, Render(n));
  }

  /** "2" and "+2.5" are true. */
  lemma PositiveExamples()
    ensures Classify("2") == Some(true) && Classify("+2.5") == Some(true)
  {
    SmallNumeral(Numeral("", "2", false, "", None), "2");
    SmallNumeral(Numeral("+", "2", true, "5", None), "+2.5");
  }

  /** "-2" and "-3.14" are false. */
  lemma NegativeExamples()
    ensures Classify("-2") == Some(false) && Classify("-3.14") == Some(false)
  {
    SmallNumeral(Numeral("-", "2", false, "", None), "-2");
    SmallNumeral(Numeral("-", "3", true, "14", None), "-3.14");
  }

  lemma ZeroDigits(s: string)
    requires s == "000"
    ensures AllDigits(s) && DigitsValue(s) == 0
  {
    assert s[..2][..1][..0] == [];
    assert DigitValue(s[0]) == 0 && DigitValue(s[1]) == 0 && DigitValue(s[2]) == 0;
    calc {
      DigitsValue(s);
      DigitsValue(s[..2]) * 10;
      DigitsValue(s[..2][..1]) * 100;
      DigitsValue(s[..2][..1][..0]) * 1000;
    }
  }

  /** "0.00" is false. */
  lemma ZeroExample()
    ensures Classify("0.00") == Some(false)
  {
    var n := Numeral("", "0", true, "00", None);
    ZeroDigits(n.whole + n.frac);
    SmallNumeral(n, "0.00");
  }

  /** "-0" and "+0" are false. */
  lemma SignedZeroExamples()
    ensures Classify("-0") == Some(false) && Classify("+0") == Some(false)
  {
    SmallNumeral(Numeral("-", "0", false, "", None), "-0");
    SmallNumeral(Numeral("+", "0", false, "", None), "+0");
  }

  /** "1e-3" is true. */
  lemma PositiveExponentExample()
    ensures Classify("1e-3") == Some(true)
  {
    SingleDigitExponent("3");
    SmallNumeral(Numeral("", "1", false, "", Some(Exponent('e', "-", "3"))), "1e-3");
  }

  /** "-1e-3" is false. */
  lemma NegativeExponentExample()
    ensures Classify("-1e-3") == Some(false)
  {
    SingleDigitExponent("3");
    SmallNumeral(Numeral("-", "1", false, "", Some(Exponent('e', "-", "3"))), "-1e-3");
  }

  lemma SingleDigitExponent(digits: string)
    requires |digits| == 1 && IsDigit(digits[0])
    ensures AllDigits(digits) && SaturatedExponent(digits, 0) == DigitValue(digits[0])
  {
    assert digits[1..] == [];
  }

  /** A numeral of at most three digits and a small exponent is moderate. */
  lemma SmallNumeral(n: Numeral, s: string)
    requires WellFormed(n) && |n.whole + n.frac| <= 3 && -280 <= Scale(n) <= 280
    requires Render(n) == s
    ensures Classify(s) == Some(ExactSign(n) == Positive)
  {
    DigitsValueBound(n.whole + n.frac);
    Pow10Monotone(|n.whole + n.frac|, 19);
    ModerateNumeralClassify(n);
  }

  /** "NaN" and "Inf" are rejected. */
  lemma SpecialWordsRejected()
    ensures Classify("NaN") == None && Classify("Inf") == None
  {
    WordRejected("NaN", 0);
    WordRejected("Inf", 0);
  }

  /** "-Inf" is rejected. */
  lemma NegativeInfinityRejected()
    ensures Classify("-Inf") == None
  {
    WordRejected("-Inf", 1);
  }

  /** "maybe" and "abc" are rejected. */
  lemma InvalidWordsRejected()
    ensures Classify("maybe") == None && Classify("abc") == None
  {
    WordRejected("maybe", 0);
    WordRejected("abc", 0);
  }

  /** A value that is no token and holds a letter other than an exponent marker is rejected. */
  lemma WordRejected(s: string, i: nat)
    requires s !in TrueTokens && s !in FalseTokens
    requires i < |s| && IsLetterOtherThanExponent(s[i])
    ensures Classify(s) == None
  {
    ParseBoolWithinDisplays(s);
    if Scan(s).Some? {
      NumeralCharacters(Scan(s).value, i);
    }
  }

  predicate IsLetterOtherThanExponent(c: char) {
    ('a' <= c <= 'z' || 'A' <= c <= 'Z') && c != 'e' && c != 'E'
  }

  /** A numeral holds signs, digits, a point and an exponent marker only. */
  lemma NumeralCharacters(n: Numeral, i: nat)
    requires WellFormed(n) && i < |Render(n)|
    ensures !IsLetterOtherThanExponent(Render(n)[i])
  {
    var m := MantissaText(n.whole, n.dot, n.frac);
    var e := RenderExponent(n.exponent);
    var s := Render(n);
    assert s == n.sign + (m + e);
    if i < |n.sign| {
      assert s[i] == n.sign[i];
    } else if i < |n.sign| + |m| {
      var j := i - |n.sign|;
      assert s[i] == m[j];
      if j < |n.whole| {
        assert m[j] == n.whole[j];
      } else if n.dot && j == |n.whole| {
      } else {
        var point := if n.dot then 1 else 0;
        assert m[j] == n.frac[j - |n.whole| - point];
      }
    } else {
      var j := i - |n.sign| - |m|;
      assert s[i] == e[j];
      var x := n.exponent.value;
      if j > |x.sign| {
        assert e[j] == x.digits[j - 1 - |x.sign|];
      } else if j > 0 {
        assert e[j] == x.sign[j - 1];
      }
    }
  }

  /** A numeral of one character has neither a fraction nor an exponent. */
  lemma ShortRenderScale(n: Numeral)
    requires WellFormed(n)
    ensures |Render(n)| == 1 ==> Scale(n) == 0
  {
    var m := MantissaText(n.whole, n.dot, n.frac);
    var e := RenderExponent(n.exponent);
    assert |Render(n)| == |n.sign| + |m| + |e|;
    assert n.exponent.Some? ==> |e| >= 2;
    assert n.frac != "" ==> |m| >= 2;
  }

  /** A numeral with a fraction or an exponent that moves the point is no token. */
  lemma ScaledNumeralIsNoToken(n: Numeral)
    requires WellFormed(n) && Scale(n) != 0
    ensures Render(n) !in TrueTokens && Render(n) !in FalseTokens
  {
    NumeralTokens(n);
    ShortRenderScale(n);
  }

  /**
   * A non-zero numeral whose value reaches the float64 overflow threshold is
   * rejected: ParseFloat reports a range error, so it is neither true nor false.
   */
  lemma HugeNumeralRejected(n: Numeral)
    requires WellFormed(n) && Mantissa(n) != 0 && Overflows(Mantissa(n), Scale(n))
    ensures Classify(Render(n)) == None
  {
    NumeralTokens(n);
    ScanRender(n);
    ParseBoolWithinDisplays(Render(n));
  }

  /** A numeral that rounds to zero in float64 is false, whatever its sign. */
  lemma TinyNumeralFalse(n: Numeral)
    requires WellFormed(n) && Underflows(Mantissa(n), Scale(n))
    ensures Classify(Render(n)) == Some(false)
  {
    ScaledNumeralIsNoToken(n);
    ScanRender(n);
    UnderflowExcludesOverflow(Mantissa(n), Scale(n));
  }

  lemma ExponentFourHundred(digits: string)
    requires digits == "400"
    ensures AllDigits(digits) && SaturatedExponent(digits, 0) == 400
  {
    var tail, last := digits[1..], digits[2..];
    assert tail[1..] == last && last[1..] == [];
    assert DigitValue(digits[0]) == 4 && DigitValue(tail[0]) == 0 && DigitValue(last[0]) == 0;
    calc {
      SaturatedExponent(digits, 0);
      SaturatedExponent(tail, 4);
      SaturatedExponent(last, 40);
      SaturatedExponent(last[1..], 400);
    }
  }

  /** The numeral 1 scaled by 10^400 or 10^-400. */
  lemma OneTimesPow10(sign: string, s: string)
    requires sign == "" || sign == "-"
    requires s == "1e" + sign + "400"
    ensures var n := Numeral("", "1", false, "", Some(Exponent('e', sign, "400")));
      && WellFormed(n) && Render(n) == s && Mantissa(n) == 1
      && Scale(n) == (if sign == "-" then -400 else 400)
  {
    var n := Numeral("", "1", false, "", Some(Exponent('e', sign, "400")));
    ExponentFourHundred("400");
    assert n.whole + n.frac == "1";
    assert DigitsValue("1") == 1;
  }

  /** "1e400" overflows and is rejected. */
  lemma HugeNumberRejected(s: string)
    requires s == "1e400"
    ensures Classify(s) == None
  {
    OneTimesPow10("", s);
    HugeOverflows(1, 400);
    HugeNumeralRejected(Numeral("", "1", false, "", Some(Exponent('e', "", "400"))));
  }

  /** "1e-400" rounds to zero and is false. */
  lemma TinyNumberFalse(s: string)
    requires s == "1e-400"
    ensures Classify(s) == Some(false)
  {
    OneTimesPow10("-", s);
    TinyUnderflows(1, 1, -400);
    TinyNumeralFalse(Numeral("", "1", false, "", Some(Exponent('e', "-", "400"))));
  }

  /**
   * A whitespace-only value: the string accessors' default and error modes
   * treat it as set (""), while the integer and boolean accessors report it
   * as not found.
   */
  lemma WhitespaceOnlyDisagreement(deobfuscate: Deobfuscator, env: Environment, key: string, defaultValue: string)
    requires key in env && env[key] != "" && AllSpace(env[key])
    ensures GetStringOrError(deobfuscate, env, key) == Fallible("", None)
    ensures GetStringOrDefault(deobfuscate, env, key, defaultValue) == ""
    ensures GetIntOrError(deobfuscate, env, key).err == Some(NotFound(key))
    ensures GetBoolOrError(deobfuscate, env, key).err == Some(NotFound(key))
  {
    WhitespaceOnlyIsSet(deobfuscate, env, key, defaultValue);
    WhitespaceOnlyNotFound(deobfuscate, env, key);
    BlankIsNotFound(deobfuscate, env, key, false);
  }
}
