/**
 * `envProcess`: how a raw environment value is resolved. The value is
 * trimmed; a `base64:` prefix selects URL-safe base64 decoding of the rest,
 * an `obfuscated:` prefix selects deobfuscation of the rest, and anything
 * else is the trimmed value itself. A decoder failure is not reported as an
 * error: its message becomes the value.
 */
module Process {
  import opened Wrappers
  import opened GoStrings
  import opened Base64Url

  /**
   * The deobfuscation function of the `envenc` library, whose algorithm is
   * not part of this model: the decoded text, or an error message.
   */
  type Deobfuscator = string -> Result<string, string>

  const Base64Prefix: string := "base64:"
  const ObfuscatedPrefix: string := "obfuscated:"

  /** Go's `string(bytes)`: one character per byte. */
  function BytesToString(bs: seq<Byte>): (s: string)
    ensures |s| == |bs| && forall i :: 0 <= i < |bs| ==> s[i] as int == bs[i]
  {
    seq(|bs|, i requires 0 <= i < |bs| => bs[i] as char)
  }

  /** A value with neither prefix after trimming resolves to the trimmed value. */
  predicate IsPlain(t: string) {
    !HasPrefix(t, Base64Prefix) && !HasPrefix(t, ObfuscatedPrefix)
  }

  /**
   * What a `base64:` value resolves to: the decoded bytes as characters, or
   * the decoder's "illegal base64 data at input byte N" message.
   */
  function DecodedBase64(encoded: string): (r: string)
    ensures DecodeString(encoded).Ok? ==> r == BytesToString(DecodeString(encoded).value)
    ensures DecodeString(encoded).Err? ==> r == DecodeString(encoded).error
  {
    match DecodeString(encoded)
    case Ok(bytes) => BytesToString(bytes)
    case Err(message) => message
  }

  /** What an `obfuscated:` value resolves to: the decoded text, or the error message. */
  function Deobfuscated(deobfuscate: Deobfuscator, encoded: string): (r: string)
    ensures deobfuscate(encoded).Ok? ==> r == deobfuscate(encoded).value
    ensures deobfuscate(encoded).Err? ==> r == deobfuscate(encoded).error
  {
    match deobfuscate(encoded)
    case Ok(decoded) => decoded
    case Err(message) => message
  }

  function EnvProcess(deobfuscate: Deobfuscator, value: string): (r: string)
    ensures IsPlain(TrimSpace(value)) ==> r == TrimSpace(value)
  {
    var valueTrimmed := TrimSpace(value);
    if HasPrefix(valueTrimmed, Base64Prefix) then
      DecodedBase64(TrimPrefix(valueTrimmed, Base64Prefix))
    else if HasPrefix(valueTrimmed, ObfuscatedPrefix) then
      Deobfuscated(deobfuscate, TrimPrefix(valueTrimmed, ObfuscatedPrefix))
    else valueTrimmed
  }

  /** Resolving a plain value twice is the same as resolving it once. */
  lemma EnvProcessIdempotent(deobfuscate: Deobfuscator, value: string)
    requires IsPlain(TrimSpace(value))
    ensures EnvProcess(deobfuscate, EnvProcess(deobfuscate, value)) == EnvProcess(deobfuscate, value)
  {
    TrimSpaceIdempotent(value);
  }

  /** Whitespace around a value, prefixed or not, never changes what it resolves to. */
  lemma EnvProcessPadded(deobfuscate: Deobfuscator, w1: string, value: string, w2: string)
    requires AllSpace(w1) && AllSpace(w2)
    ensures EnvProcess(deobfuscate, w1 + value + w2) == EnvProcess(deobfuscate, value)
  {
    TrimSpacePadded(w1, value, w2);
  }

  /** A prefixed text whose last character is not whitespace is its own trimmed form. */
  lemma TrimPrefixed(prefix: string, rest: string)
    requires |prefix| > 0 && !IsSpace(prefix[0]) && !IsSpace(prefix[|prefix| - 1])
    requires rest == [] || !IsSpace(rest[|rest| - 1])
    ensures TrimSpace(prefix + rest) == prefix + rest
  {
    var s := prefix + rest;
    assert s[0] == prefix[0];
    assert s[|s| - 1] == if rest == [] then prefix[|prefix| - 1] else rest[|rest| - 1];
    TrimSpaceKeeps(s);
  }

  lemma StripPrefixed(prefix: string, rest: string)
    ensures HasPrefix(prefix + rest, prefix) && TrimPrefix(prefix + rest, prefix) == rest
  {
    assert (prefix + rest)[..|prefix|] == prefix;
  }

  /** A text that starts with neither `b` nor `o` has neither prefix. */
  lemma OtherInitialIsPlain(prefix: string, rest: string)
    requires |prefix| > 0 && prefix[0] != 'b' && prefix[0] != 'o'
    ensures IsPlain(prefix + rest)
  {
    assert (prefix + rest)[0] == prefix[0];
  }

  lemma ResolveTrimmedPlain(deobfuscate: Deobfuscator, v: string)
    requires TrimSpace(v) == v && IsPlain(v)
    ensures EnvProcess(deobfuscate, v) == v
  {
  }

  lemma ResolveTrimmedBase64(deobfuscate: Deobfuscator, v: string, rest: string)
    requires TrimSpace(v) == v && HasPrefix(v, Base64Prefix) && TrimPrefix(v, Base64Prefix) == rest
    ensures EnvProcess(deobfuscate, v) == DecodedBase64(rest)
  {
  }

  lemma ResolveTrimmedObfuscated(deobfuscate: Deobfuscator, v: string, rest: string)
    requires TrimSpace(v) == v && !HasPrefix(v, Base64Prefix)
    requires HasPrefix(v, ObfuscatedPrefix) && TrimPrefix(v, ObfuscatedPrefix) == rest
    ensures EnvProcess(deobfuscate, v) == Deobfuscated(deobfuscate, rest)
  {
  }

  /** `base64:` followed by text without trailing whitespace resolves to the decoding of that text. */
  lemma EnvProcessBase64(deobfuscate: Deobfuscator, rest: string)
    requires rest == [] || !IsSpace(rest[|rest| - 1])
    ensures EnvProcess(deobfuscate, Base64Prefix + rest) == DecodedBase64(rest)
  {
    TrimPrefixed(Base64Prefix, rest);
    StripPrefixed(Base64Prefix, rest);
    ResolveTrimmedBase64(deobfuscate, Base64Prefix + rest, rest);
  }

  /** Encoding any bytes behind `base64:` gives them back, untrimmed. */
  lemma EnvProcessBase64Encode(deobfuscate: Deobfuscator, bs: seq<Byte>)
    ensures EnvProcess(deobfuscate, Base64Prefix + Encode(bs)) == BytesToString(bs)
  {
    var rest := Encode(bs);
    EncodeChars(bs);
    if rest != [] {
      assert InAlphabet(rest[|rest| - 1]) || rest[|rest| - 1] == '=';
    }
    EnvProcessBase64(deobfuscate, rest);
    DecodeStringEncode(bs);
  }

  /**
   * Base64 the decoder rejects (a byte outside the alphabet, padding and
   * newlines is one way) resolves to the decoder's message, returned as the
   * value.
   */
  lemma EnvProcessBase64Corrupt(deobfuscate: Deobfuscator, rest: string)
    requires rest == [] || !IsSpace(rest[|rest| - 1])
    requires DecodeString(rest).Err?
    ensures exists offset: nat :: offset <= |rest| && EnvProcess(deobfuscate, Base64Prefix + rest) == CorruptInputMessage(offset)
  {
    EnvProcessBase64(deobfuscate, rest);
    var offset := DecodeFrom(rest, 0).error;
    assert EnvProcess(deobfuscate, Base64Prefix + rest) == CorruptInputMessage(offset);
  }

  /** `obfuscated:` followed by text without trailing whitespace resolves to the deobfuscation of that text. */
  lemma EnvProcessObfuscated(deobfuscate: Deobfuscator, rest: string)
    requires rest == [] || !IsSpace(rest[|rest| - 1])
    ensures EnvProcess(deobfuscate, ObfuscatedPrefix + rest) == Deobfuscated(deobfuscate, rest)
  {
    TrimPrefixed(ObfuscatedPrefix, rest);
    StripPrefixed(ObfuscatedPrefix, rest);
    assert !HasPrefix(ObfuscatedPrefix + rest, Base64Prefix) by {
      assert (ObfuscatedPrefix + rest)[0] == 'o';
    }
    ResolveTrimmedObfuscated(deobfuscate, ObfuscatedPrefix + rest, rest);
  }

  /** A `base64:` value is never handed to the deobfuscator. */
  lemma EnvProcessBase64First(d1: Deobfuscator, d2: Deobfuscator, value: string)
    requires HasPrefix(TrimSpace(value), Base64Prefix)
    ensures EnvProcess(d1, value) == EnvProcess(d2, value)
  {
  }

  /** The prefixes are matched case-sensitively: other spellings stay as they are. */
  lemma EnvProcessCaseSensitive(deobfuscate: Deobfuscator, rest: string)
    requires rest == [] || !IsSpace(rest[|rest| - 1])
    ensures EnvProcess(deobfuscate, "Base64:" + rest) == "Base64:" + rest
    ensures EnvProcess(deobfuscate, "BASE64:" + rest) == "BASE64:" + rest
    ensures EnvProcess(deobfuscate, "Obfuscated:" + rest) == "Obfuscated:" + rest
  {
    OtherPrefixIsPlain(deobfuscate, "Base64:", rest);
    OtherPrefixIsPlain(deobfuscate, "BASE64:", rest);
    OtherPrefixIsPlain(deobfuscate, "Obfuscated:", rest);
  }

  lemma OtherPrefixIsPlain(deobfuscate: Deobfuscator, prefix: string, rest: string)
    requires |prefix| > 0 && !IsSpace(prefix[0]) && !IsSpace(prefix[|prefix| - 1])
    requires prefix[0] != 'b' && prefix[0] != 'o'
    requires rest == [] || !IsSpace(rest[|rest| - 1])
    ensures EnvProcess(deobfuscate, prefix + rest) == prefix + rest
  {
    TrimPrefixed(prefix, rest);
    OtherInitialIsPlain(prefix, rest);
    ResolveTrimmedPlain(deobfuscate, prefix + rest);
  }
}
