# dracory/env: typed environment accessors, modelled in Dafny

The Go package `env` reads a process environment variable and turns it into
a string, an integer or a boolean. Every read goes through `envProcess`. It
trims the raw value. It then decodes a `base64:` value (URL-safe, padded
base64), deobfuscates an `obfuscated:` value, and returns anything else
trimmed. A decoder failure is not an error: its message becomes the value.

Each type has four accessors:

- **Zero mode** (`GetX`): the zero value on any error.
- **Default mode** (`GetXOrDefault`): the caller's default on any error.
- **Error mode** (`GetXOrError`): a `(value, error)` pair.
- **Panic mode** (`GetXOrPanic`): panics on any error.

The boolean error mode is the one real decision procedure. On the trimmed
value it tries, in order:

1. the truthy and falsy token sets, built at package `init` from the
   comma-separated lists `TrueValues` and `FalseValues`;
2. a strict numeric pattern, read with `strconv.ParseFloat`, where a
   positive number is true and any other number is false;
3. `strconv.ParseBool`.

The model makes the environment an explicit `map<string, string>`. An
unset variable reads as "". A Go `(value, error)` pair becomes
`Fallible(value, err)`, and a panic becomes the `Panics` case of `Outcome`.

Files:

| file | contents |
|---|---|
| `environ.dfy` | The environment, error kinds and outcomes. |
| `go_strings.dfy` | `strings.TrimSpace`, `TrimPrefix`, `Split` and its inverse `Join`. |
| `go_strconv.dfy` | `strconv.Atoi`: its fast path for inputs shorter than 19 bytes, and otherwise `ParseInt`, which strips the sign and scans digits with `ParseUint`, reporting a 64-bit overflow at the digit where it happens. Also `FormatInt` and `ParseBool`. |
| `base64_url.dfy` | `base64.URLEncoding.DecodeString`, following Go's quantum decoder, plus the encoder it inverts. |
| `numeric_pattern.dfy` | The regular expression `^[+-]?((\d+\.?\d*)\|(\.\d+))([eE][+-]?\d+)?$`. It is a numeral datatype with a renderer and a scanner that decides the pattern. |
| `float_parse.dfy` | What `strconv.ParseFloat` does with such a numeral: a range error on overflow, rounding to zero on underflow, the exact sign otherwise. |
| `wrappers.dfy` | The `Option` and `Result` datatypes. |
| `constants.dfy`, `token_lists.dfy`, `bool_tokens.dfy` | The token lists. The `init` loop is a method that builds the two sets. |
| `process.dfy` | `envProcess`. |
| `string_accessors.dfy`, `int_accessors.dfy`, `bool_accessors.dfy` | The twelve accessors. |

The accessors do not agree on when a value is "not found":

- `string.go` tests the raw value, so a whitespace-only value is set and
  reads as "".
- `int.go` and `bool.go` test the resolved value, so a whitespace-only
  value is not found.

`BoolAccessors.WhitespaceOnlyDisagreement` states the difference.

## Model

| member | source | states |
|---|---|---|
| Environ.Getenv | string.go:11 | An unset variable reads as the empty string; a set one as its value. |
| GoStrings.TrimSpace | process.go:11 | The trimmed value starts and ends with a non-whitespace character, or is empty. |
| GoStrings.TrimLeft | process.go:11 | Drops exactly the longest all-whitespace prefix. |
| GoStrings.TrimRight | process.go:11 | Drops exactly the longest all-whitespace suffix. |
| GoStrings.TrimSpaceIdempotent | process.go:11 | Trimming twice is trimming once. |
| GoStrings.TrimSpaceKeeps | process.go:11 | A value with no whitespace at either end is unchanged by trimming. |
| GoStrings.TrimSpaceEmpty | bool.go:57-58 | Trimming gives "" exactly when the value is all whitespace. |
| GoStrings.TrimSpacePadded | process.go:11 | Whitespace added around a value never changes its trimmed form. |
| GoStrings.TrimSpaceAvoids | bool.go:21 | A character absent from the input is absent from its trimmed form, so trimming a comma-free piece leaves it comma-free. |
| GoStrings.HasPrefixConcat | process.go:13 | A value has the prefix exactly when it is the prefix followed by some remainder. |
| GoStrings.TrimPrefix | process.go:14 | With the prefix present, prefix plus result is the input; otherwise the input is unchanged. |
| GoStrings.Split | bool.go:20 | At least one piece. Joining the pieces with the separator gives the input back, and no piece holds the separator. |
| GoStrings.SplitJoin | bool.go:20 | Splitting the join of separator-free pieces gives the pieces back. |
| GoStrings.JoinInjective | bool.go:20 | Two lists of separator-free pieces with the same join are equal. |
| GoStrings.SplitPrefix | bool.go:20 | A separator-free first piece, then the separator, splits off as the first element. |
| GoStrings.SplitSuffix | bool.go:20 | A separator, then a separator-free last piece, splits off as the last element. |
| GoStrings.SplitWhole | bool.go:20 | A text without the separator splits into itself alone. |
| GoStrconv.Atoi | int.go:35 | Succeeds exactly on an optional sign followed by one or more ASCII digits whose value fits 64 bits, and returns that value. The error is a syntax error exactly when the syntax is wrong and the leading digit run fits 64 unsigned bits; otherwise it is a range error. |
| GoStrconv.AtoiFast | int.go:35 | For an input of 1 to 18 bytes: the same contract as `Atoi`. Such an input never overflows, so every failure is a syntax error. |
| GoStrconv.ParseInt | int.go:35 | For any input: the same contract as `Atoi`, with the magnitude checked against the 64-bit signed range after `ParseUint`. |
| GoStrconv.ParseUint | int.go:35 | Succeeds exactly on one or more ASCII digits whose value fits 64 unsigned bits, and returns that value. A syntax error exactly when the text is not all digits and its leading digit run fits 64 bits; a range error otherwise. |
| GoStrconv.ParseUintFromDigits | int.go:35 | Scanning on from a digit prefix that fits: a range error if the leading digit run overflows 64 bits, otherwise a syntax error if a non-digit follows, otherwise the value. |
| GoStrconv.OverflowIsRangeError | int.go:35-38 | Digits beyond 64 unsigned bits, followed by nothing or by a non-digit, are a range error. |
| GoStrconv.AtoiFormatInt | int.go:35 | Every 64-bit integer written in decimal parses back to itself. |
| GoStrconv.DecimalDigits | int.go:35 | The decimal digits of a natural number denote it and have no leading zero. |
| GoStrconv.AtoiAcceptsExamples | int.go:35 | "123", the value int_test.go:9 sets, parses to 123; the model adds "-45", which parses to -45. |
| GoStrconv.AtoiRejectsExamples | int.go:35 | "abc", the value int_test.go:21 sets, is a syntax error; so are the model's own cases "12.5", " 7" and "+". |
| GoStrconv.AtoiRangeExample | int.go:35-38 | Twenty nines are a range error. |
| GoStrconv.AtoiRangeBeforeSyntaxExample | int.go:35-38 | Twenty nines followed by "x" are a range error, not a syntax error. |
| GoStrconv.ParseBool | bool.go:81 | Only a syntax error can occur. An accepted spelling has one to five characters, and its first character decides it: `1`, `t` or `T` is true; `0`, `f` or `F` is false. |
| NumericPattern.ScanDecides | bool.go:15 | The scanner accepts exactly the strings the regular expression matches. |
| NumericPattern.Scan | bool.go:15 | What the scanner returns is a well-formed numeral that renders back to the scanned string. |
| NumericPattern.ScanRender | bool.go:15 | Scanning the rendering of a well-formed numeral gives that numeral back. |
| FloatParse.ParseFloat | bool.go:73 | Fails, with a range error, exactly when the numeral is non-zero and its exact value rounds past the largest float64. Otherwise it returns the exact sign, or zero exactly when the value is zero or at most 2^-1075. |
| FloatParse.ModerateNumeralKeepsSign | bool.go:73 | A numeral whose mantissa is below 10^19 (at most 19 significant digits) and whose decimal scale lies within 280 parses to its exact sign. |
| FloatParse.TinyNumeralRoundsToZero | bool.go:73 | A numeral whose scale lies at least 324 places below its digit count parses to zero. |
| FloatParse.HugeOverflows | bool.go:73 | A non-zero mantissa scaled by 10^309 or more overflows. |
| FloatParse.TinyUnderflows | bool.go:73 | A d-digit mantissa scaled by 10^-(d+324) or less underflows. |
| FloatParse.UnderflowExcludesOverflow | bool.go:73 | A magnitude that rounds to zero never reaches the overflow threshold. |
| FloatParse.ModerateDoesNotOverflow | bool.go:73 | A mantissa below 10^19 scaled by at most 10^280 does not overflow. |
| FloatParse.ModerateDoesNotUnderflow | bool.go:73 | A non-zero mantissa scaled by at least 10^-280 does not underflow. |
| Base64Url.DecodeStringEncode | process.go:16 | Decoding the padded URL-safe encoding of any bytes gives the bytes back. |
| Base64Url.DecodeString | process.go:16-20 | Every failure is the "illegal base64 data at input byte N" message, with N the offset where decoding stopped, within the input. A character outside the alphabet, padding and newlines anywhere makes decoding fail. The empty input decodes to no bytes. |
| Base64Url.Quantum | process.go:16 | A decoded quantum moves forward within the input. A failure offset lies within the input, no earlier than the current position less the values already read. |
| Base64Url.DecodeFrom | process.go:16 | A failure offset lies between the start position and the end of the input; nothing left to decode gives no bytes. |
| Base64Url.DecodeFromRejectsForeign | process.go:16-20 | A character outside the alphabet, padding and newlines at or after the start position makes decoding fail. |
| Base64Url.DecodeFromStopsAtForeign | process.go:16-20 | Decoding from any position before such a character fails. |
| Base64Url.EncodeChars | process.go:16 | The encoding uses only alphabet characters and padding. |
| Process.DecodedBase64 | process.go:16-22 | The decoded bytes as characters on success; on failure the decoder's error message itself, which `DecodeString` states is the message for an offset within the input. |
| Process.Deobfuscated | process.go:28-34 | The deobfuscated text on success, the error's message on failure. |
| Process.BytesToString | process.go:22 | Decoded bytes become one character per byte, in order. |
| Process.EnvProcess | process.go:10-38 | A trimmed value with neither prefix resolves to the trimmed value. |
| Process.EnvProcessIdempotent | process.go:11-37 | Resolving a value with neither prefix twice is resolving it once. |
| Process.EnvProcessPadded | process.go:11-25 | Whitespace around any value, prefixed or not, does not change what it resolves to. So leading whitespace does not hide a prefix. |
| Process.EnvProcessBase64 | process.go:13-23 | `base64:` plus a remainder that does not end in whitespace resolves to the decoding of that remainder. |
| Process.EnvProcessBase64Encode | process.go:13-23 | `base64:` plus the encoding of any bytes resolves to exactly those bytes, not trimmed again. |
| Process.EnvProcessBase64Corrupt | process.go:16-20 | Any base64 the decoder rejects resolves to its "illegal base64 data at input byte N" message, with N within the input, returned as the value. |
| Process.EnvProcessObfuscated | process.go:25-35 | `obfuscated:` plus a remainder that does not end in whitespace resolves to the deobfuscation of the remainder, or to its error message. |
| Process.EnvProcessBase64First | process.go:13-25 | A `base64:` value never reaches the deobfuscator. |
| Process.EnvProcessCaseSensitive | process.go:13-25 | "Base64:", "BASE64:" and "Obfuscated:" are not prefixes; such values resolve to themselves. |
| StringAccessors.GetString | string.go:10-12 | Unset gives ""; a set value with neither prefix gives the value trimmed. |
| StringAccessors.GetStringOrDefault | string.go:15-21 | The default exactly when the raw value is ""; the resolved value otherwise. |
| StringAccessors.GetStringOrError | string.go:25-31 | Not found exactly when the raw value is ""; otherwise the resolved value with no error. |
| StringAccessors.GetStringOrPanic | string.go:35-41 | Panics exactly when the error mode reports an error; otherwise returns the same string. |
| StringAccessors.WhitespaceOnlyIsSet | string.go:15-31 | A whitespace-only raw value is set: every mode returns "" without an error or the default. |
| StringAccessors.PlainValueEveryMode | string_test.go:9-13 | A set value needing no trimming and with no prefix, such as "hello", comes back unchanged from every mode. |
| StringAccessors.UnsetEveryMode | string_test.go:16-19 | An unset variable gives "", the default, a not-found error and a panic. |
| IntAccessors.GetIntOrError | int.go:29-40 | Not found exactly when the resolved value is "". Success exactly when `Atoi` accepts it, with its value. Otherwise unparsable, with 0. |
| IntAccessors.GetInt | int.go:10-16 | 0 on any error; the parsed value otherwise. |
| IntAccessors.GetIntOrDefault | int.go:19-25 | The default on any error; the parsed value otherwise. |
| IntAccessors.GetIntOrPanic | int.go:44-50 | Panics with the error mode's error exactly when there is one; otherwise returns the same value. |
| IntAccessors.WhitespaceOnlyNotFound | int.go:30-33 | A whitespace-only value is not found. |
| IntAccessors.PaddedIntegerReadsBack | int.go:29-40 | Every 64-bit integer in decimal, with any whitespace around it, reads back as itself in all four modes. |
| IntAccessors.NonNumeralUnparsable | int.go:35-38 | A value that is not a sign followed by digits is unparsable, and `GetInt` gives 0. |
| IntAccessors.IntExampleNumber | int_test.go:9-13 | "123" reads as 123. |
| IntAccessors.IntExampleWord | int_test.go:21-25 | "abc" is unparsable. |
| BoolTokens.TokenSet | bool.go:20-32 | Every token is non-empty, has no whitespace at either end and holds no comma. Every non-blank piece of the list contributes its trimmed form. |
| BoolTokens.BuildTokenSet | bool.go:20-25 | The loop builds exactly the trimmed, non-empty comma-separated pieces of the list. |
| BoolTokens.Init | bool.go:18-33 | `init` leaves exactly the twelve truthy and the twelve falsy tokens in the two sets. |
| BoolTokens.TokenSetOfTrimmed | bool.go:20-25 | When every piece is trimmed and non-empty, the set is exactly the pieces. |
| BoolTokens.SplitTrueValues | constants.go:15 | `TrueValues` splits into its twelve tokens. |
| BoolTokens.SplitFalseValues | constants.go:23 | `FalseValues` splits into its twelve tokens. |
| BoolTokens.TrueTokenListTrimmed | constants.go:15 | Every truthy token is non-empty with no surrounding whitespace. |
| BoolTokens.FalseTokenListTrimmed | constants.go:23 | Every falsy token is non-empty with no surrounding whitespace. |
| BoolTokens.TrueSetIsTrueTokens | bool.go:18-25 | The truthy set built from `TrueValues` is exactly the twelve tokens, each unchanged. |
| BoolTokens.FalseSetIsFalseTokens | bool.go:26-32 | The falsy set built from `FalseValues` is exactly the twelve tokens, each unchanged. |
| BoolTokens.TokenSetsDisjoint | bool.go:63-68 | No token is both truthy and falsy, so testing the truthy set first changes nothing. |
| BoolTokens.TokenExamples | constants.go:15-23 | "1", "T" and "Yes" are truthy; "0", "F" and "No" are falsy. Matching is case-sensitive: "tRUE" and "oN" are in neither set. |
| BoolTokens.ParseBoolWithinTokens | bool.go:81 | Every spelling `strconv.ParseBool` accepts is a token of the same meaning. |
| BoolAccessors.NumericTruth | bool.go:72-79 | Nothing unless the pattern matches and `ParseFloat` succeeds. When it answers, it answers true exactly when `ParseFloat` gives a positive float. True means the exact value is positive. False means the value is zero or negative, or rounds to zero. |
| BoolAccessors.Classify | bool.go:62-85 | Tokens decide first. A non-token is decided by the numeric rule; the `ParseBool` fallback never changes that answer. |
| BoolAccessors.ClassifySucceeds | bool.go:62-85 | A trimmed value is accepted exactly when it is a token or a numeral `ParseFloat` accepts. |
| BoolAccessors.GetBoolOrError | bool.go:56-86 | Not found exactly when the trimmed resolved value is "". Success exactly when the classification answers, with its answer. Otherwise unparsable, with false. |
| BoolAccessors.SucceedsOnTokenOrNumeral | bool.go:56-86 | The error mode succeeds exactly on a non-blank token or an accepted numeral. |
| BoolAccessors.GetBool | bool.go:37-43 | False on any error; the error mode's value otherwise. |
| BoolAccessors.GetBoolOrDefault | bool.go:46-52 | The default on any error; the error mode's value otherwise. |
| BoolAccessors.GetBoolOrPanic | bool.go:90-96 | Panics with the error mode's error exactly when there is one; otherwise returns the same value. |
| BoolAccessors.BlankIsNotFound | bool.go:57-60 | An unset or whitespace-only variable is not found: false, the default, or a panic. |
| BoolAccessors.PaddingIrrelevant | bool.go:57 | Whitespace around the raw value never changes the error mode's result. |
| BoolAccessors.ReadsByClassify | bool.go:56-86 | A set value with no surrounding whitespace and no prefix reads as its classification, or is unparsable. |
| BoolAccessors.TruthyTokenIsTrue | bool.go:63-65 | Every truthy token, with any whitespace around it, reads as true with no error. |
| BoolAccessors.FalsyTokenIsFalse | bool.go:66-68 | Every falsy token, with any whitespace around it, reads as false with no error. |
| BoolAccessors.NumeralTokens | bool.go:63-78 | The only numerals among the tokens are "1" (positive) and "0" (zero), so the token tables agree with the numeric rule. |
| BoolAccessors.ModerateNumeralClassify | bool.go:72-78 | A numeral of moderate size is classified true exactly when its exact value is positive. |
| BoolAccessors.ModerateNumeralSign | bool.go:72-78 | A variable holding such a numeral reads, with no error, as whether it is positive. |
| BoolAccessors.SmallNumeral | bool.go:72-78 | A numeral of at most three digits is classified by its exact sign. |
| BoolAccessors.PositiveExamples | bool_test.go:116-122 | "2" and "+2.5" are true. |
| BoolAccessors.NegativeExamples | bool_test.go:117-123 | "-2" and "-3.14" are false. |
| BoolAccessors.ZeroExample | bool_test.go:119 | "0.00" is false. |
| BoolAccessors.SignedZeroExamples | bool_test.go:120-121 | "+0" and "-0" are false. |
| BoolAccessors.PositiveExponentExample | bool_test.go:124 | "1e-3" is true. |
| BoolAccessors.NegativeExponentExample | bool_test.go:125 | "-1e-3" is false. |
| BoolAccessors.SpecialWordsRejected | bool_test.go:127-128 | "NaN" and "Inf" are rejected. |
| BoolAccessors.NegativeInfinityRejected | bool_test.go:129 | "-Inf" is rejected. |
| BoolAccessors.InvalidWordsRejected | bool_test.go:130 | "maybe" (the table row here) and "abc" (the value bool_test.go:28 and bool_test.go:66 set for TEST_BOOL_INVALID) are rejected. |
| BoolAccessors.WordRejected | bool.go:72-84 | A non-token holding a letter other than `e`/`E` is rejected. |
| BoolAccessors.NumeralCharacters | bool.go:15 | A numeral holds no letter other than the exponent marker. |
| BoolAccessors.ScaledNumeralIsNoToken | bool.go:63-68 | A numeral with a non-zero decimal scale is not a token. |
| BoolAccessors.HugeNumeralRejected | bool.go:73-84 | Every non-zero numeral whose value reaches the float64 overflow threshold (`Overflows`, about 1.8 x 10^308) is rejected. |
| BoolAccessors.TinyNumeralFalse | bool.go:73-77 | Every numeral whose magnitude is at most 2^-1075 (`Underflows`), so that float64 rounds it to zero, reads as false whatever its sign. |
| BoolAccessors.HugeNumberRejected | bool.go:73-84 | "1e400" is rejected. |
| BoolAccessors.TinyNumberFalse | bool.go:73-77 | "1e-400" is false. |
| BoolAccessors.WhitespaceOnlyDisagreement | bool.go:57-60 | For a whitespace-only value, the string accessors report it set as "". The integer and boolean accessors report it not found. |

## Left out

- `float64.go`, `load.go` and `load_vault.go` are not part of this model.
  - `float64.go` is floating-point parsing behind the same four-mode wrapper as `int.go`.
  - `load.go` is `.env` file I/O and `log.Fatal`.
  - `load_vault.go` is vault decryption and `os.Setenv` side effects.
- `envenc.Deobfuscate` cannot be seen. It is the function parameter `Deobfuscator`, returning the text or an error message.
- The process-global environment and its concurrency are left out. The environment is an explicit, immutable map, so no accessor can change it.
- Error texts are left out. Errors are the kinds `NotFound(key)` and `Unparsable(key, value)`, carrying the data their messages quote. The only message text modelled is base64's, because it becomes a value.
- Panics are the `Panics` outcome. `GetStringOrPanic` panics with a formatted string rather than an `error` value, and that difference is not modelled.
- `strings.TrimSpace` is modelled on the ASCII whitespace set: tab, newline, vertical tab, form feed, carriage return and space. Unicode spaces such as U+0085 and U+00A0 are not modelled.
- Go strings are byte strings. The model uses one `char` per byte and does not model UTF-8.
- GoStrconv.Atoi: assumes Go's `int` is 64 bits wide. The 32-bit range is not modelled.
- FloatParse.ParseFloat: returns only the sign of the float64 (negative, zero, positive) and the range error, not the float value.
  - It is defined only on strings matching the numeric pattern, the only ones the boolean rule gives it.
  - Go's parse is taken to round correctly, to nearest with ties to even. The two thresholds are the exact rounding boundaries.
  - Go's decimal fallback keeps at most 800 digits. A numeral with more digits whose value lies within rounding distance of the overflow or underflow threshold is not modelled.
- BoolAccessors.ModerateNumeralClassify: proves sign-decides-truth only for a mantissa below 10^19 (at most 19 significant digits) and a scale within 280. For every other numeral, `HugeNumeralRejected` and `TinyNumeralFalse` prove that one that overflows is rejected and one that rounds to zero is false; between those thresholds, outside these bounds, only `ParseFloat`'s contract (the exact sign) applies.
- Base64Url.DecodeString: follows Go's general quantum decoder. Go's two fast paths, which assemble eight input bytes (`assemble64`) or four (`assemble32`) at a time before falling back to the quantum loop, give the same results and are not modelled separately.
