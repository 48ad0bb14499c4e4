/**
 * `base64.URLEncoding.DecodeString` of Go's standard library: the URL-safe
 * alphabet of section 5 of RFC 4648 with `=` padding, in Go's non-strict
 * mode. The decoder skips `\n` and `\r` anywhere, requires full padding, and
 * reports a failure as the offset of the offending input byte, which Go
 * prints as "illegal base64 data at input byte N".
 */
module Base64Url {
  import opened Wrappers
  import opened GoStrconv

  type Byte = b: int | 0 <= b < 256

  /** The 64 characters of the URL-safe alphabet. */
  predicate InAlphabet(c: char) {
    ('A' <= c <= 'Z') || ('a' <= c <= 'z') || ('0' <= c <= '9') || c == '-' || c == '_'
  }

  predicate IsNewline(c: char) {
    c == '\n' || c == '\r'
  }

  /** The 6-bit value an alphabet character stands for. */
  function CharValue(c: char): (v: nat)
    requires InAlphabet(c)
    ensures v < 64 && AlphabetChar(v) == c
  {
    if 'A' <= c <= 'Z' then c as int - 'A' as int
    else if 'a' <= c <= 'z' then c as int - 'a' as int + 26
    else if '0' <= c <= '9' then c as int - '0' as int + 52
    else if c == '-' then 62
    else 63
  }

  /** The alphabet character for a 6-bit value. */
  function AlphabetChar(v: nat): (c: char)
    requires v < 64
    ensures InAlphabet(c)
  {
    if v < 26 then ('A' as int + v) as char
    else if v < 52 then ('a' as int + v - 26) as char
    else if v < 62 then ('0' as int + v - 52) as char
    else if v == 62 then '-'
    else '_'
  }

  lemma CharValueOfAlphabetChar(v: nat)
    requires v < 64
    ensures CharValue(AlphabetChar(v)) == v
  {
  }

  /** Index of the first position at or after `i` that is not a newline. */
  function SkipNewlines(src: string, i: nat): (j: nat)
    requires i <= |src|
    ensures i <= j <= |src|
    ensures j < |src| ==> !IsNewline(src[j])
    ensures forall k :: i <= k < j ==> IsNewline(src[k])
    decreases |src| - i
  {
    if i < |src| && IsNewline(src[i]) then SkipNewlines(src, i + 1) else i
  }

  /**
   * The bytes a quantum of two to four 6-bit values carries: the values,
   * padded with zeros, form a 24-bit number whose top |vals| - 1 bytes are
   * kept. Bits below the last kept byte are ignored (non-strict mode).
   */
  function QuantumBytes(vals: seq<nat>): (r: seq<Byte>)
    requires 2 <= |vals| <= 4
    requires forall i :: 0 <= i < |vals| ==> vals[i] < 64
    ensures |r| == |vals| - 1
  {
    var d := vals + [0, 0];
    var n := d[0] * 262144 + d[1] * 4096 + d[2] * 64 + d[3];
    var bytes: seq<Byte> := [n / 65536, (n / 256) % 256, n % 256];
    bytes[..|vals| - 1]
  }

  /** A decoded quantum: where decoding goes on, and the bytes it produced. */
  datatype Step = Step(next: nat, bytes: seq<Byte>)

  /**
   * After padding: only newlines may follow, otherwise the first other byte
   * is reported as trailing garbage.
   */
  function Finish(src: string, q: nat, vals: seq<nat>): (r: Result<Step, nat>)
    requires q <= |src|
    requires 2 <= |vals| <= 3
    requires forall i :: 0 <= i < |vals| ==> vals[i] < 64
    ensures r.Ok? ==> r.value.next == |src|
    ensures r.Err? ==> q <= r.error < |src|
  {
    var p := SkipNewlines(src, q);
    if p < |src| then Err(p) else Ok(Step(p, QuantumBytes(vals)))
  }

  /**
   * Decodes one quantum starting at `si`, having already read the 6-bit
   * values `vals` of it. Mirrors Go's decodeQuantum for a padded encoding:
   * the error carries the offset Go reports.
   */
  function Quantum(src: string, si: nat, vals: seq<nat>): (r: Result<Step, nat>)
    requires si <= |src| && |vals| < 4 && |vals| <= si
    requires forall i :: 0 <= i < |vals| ==> vals[i] < 64
    ensures r.Ok? ==> si <= r.value.next <= |src|
    ensures r.Ok? && si < |src| ==> si < r.value.next
    ensures r.Err? ==> si - |vals| <= r.error <= |src|
    decreases |src| - si
  {
    if si == |src| then
      if vals == [] then Ok(Step(si, []))
      else Err(si - |vals|)
    else
      var c := src[si];
      if InAlphabet(c) then
        var more := vals + [CharValue(c)];
        if |more| == 4 then Ok(Step(si + 1, QuantumBytes(more)))
        else Quantum(src, si + 1, more)
      else if IsNewline(c) then Quantum(src, si + 1, vals)
      else if c != '=' || |vals| < 2 then Err(si)
      else if |vals| == 2 then
        var p := SkipNewlines(src, si + 1);
        if p == |src| then Err(|src|)
        else if src[p] != '=' then Err(p - 1)
        else Finish(src, p + 1, vals)
      else Finish(src, si + 1, vals)
  }

  /** Decodes `src` from offset `si` on, quantum by quantum. */
  function DecodeFrom(src: string, si: nat): (r: Result<seq<Byte>, nat>)
    requires si <= |src|
    ensures r.Err? ==> si <= r.error <= |src|
    ensures si == |src| ==> r == Ok([])
    decreases |src| - si
  {
    if si == |src| then Ok([])
    else
      match Quantum(src, si, [])
      case Err(offset) => Err(offset)
      case Ok(step) =>
        match DecodeFrom(src, step.next)
        case Err(offset) => Err(offset)
        case Ok(rest) => Ok(step.bytes + rest)
  }

  /** The error text of a CorruptInputError. */
  function CorruptInputMessage(offset: nat): string {
    "illegal base64 data at input byte " + FormatInt(offset)
  }

  /**
   * `base64.URLEncoding.DecodeString`, with the error as its message: the
   * offset of an input byte, and any byte outside the alphabet, padding and
   * newlines is an error.
   */
  function DecodeString(s: string): (r: Result<seq<Byte>, string>)
    ensures r.Err? ==> DecodeFrom(s, 0).Err? && DecodeFrom(s, 0).error <= |s|
    ensures r.Err? ==> r.error == CorruptInputMessage(DecodeFrom(s, 0).error)
    ensures (exists i :: 0 <= i < |s| && IsForeign(s[i])) ==> r.Err?
    ensures s == [] ==> r == Ok([])
  {
    DecodeFromRejectsForeign(s, 0);
    match DecodeFrom(s, 0)
    case Ok(bytes) => Ok(bytes)
    case Err(offset) => Err(CorruptInputMessage(offset))
  }

  /** The four characters encoding three bytes. */
  function EncodeGroup(b0: Byte, b1: Byte, b2: Byte): string {
    [AlphabetChar(b0 / 4), AlphabetChar((b0 % 4) * 16 + b1 / 16),
     AlphabetChar((b1 % 16) * 4 + b2 / 64), AlphabetChar(b2 % 64)]
  }

  /** `base64.URLEncoding.EncodeToString`: padded, URL-safe alphabet. */
  function Encode(bs: seq<Byte>): string
    decreases |bs|
  {
    if |bs| == 0 then ""
    else if |bs| == 1 then EncodeGroup(bs[0], 0, 0)[..2] + "=="
    else if |bs| == 2 then EncodeGroup(bs[0], bs[1], 0)[..3] + "="
    else EncodeGroup(bs[0], bs[1], bs[2]) + Encode(bs[3..])
  }

  /** The 24-bit arithmetic of a quantum undoes the encoder's bit split. */
  lemma QuantumBytesOfGroup(b0: Byte, b1: Byte, b2: Byte)
    ensures QuantumBytes([b0 / 4, (b0 % 4) * 16 + b1 / 16, (b1 % 16) * 4 + b2 / 64, b2 % 64]) == [b0, b1, b2]
  {
    var a0, r0 := b0 / 4, b0 % 4;
    var h1, l1 := b1 / 16, b1 % 16;
    var h2, l2 := b2 / 64, b2 % 64;
    assert b0 == 4 * a0 + r0 && b1 == 16 * h1 + l1 && b2 == 64 * h2 + l2;
    var n := a0 * 262144 + (r0 * 16 + h1) * 4096 + (l1 * 4 + h2) * 64 + l2;
    assert n == b0 * 65536 + b1 * 256 + b2;
    assert n / 65536 == b0;
    assert n / 256 == b0 * 256 + b1;
    assert (n / 256) % 256 == b1;
    assert n % 256 == b2;
  }

  /** Four alphabet characters in a row decode to the bytes of their values. */
  lemma QuantumOfChars(src: string, si: nat, v: seq<nat>)
    requires |v| == 4 && forall k :: 0 <= k < 4 ==> v[k] < 64
    requires si + 4 <= |src| && forall k :: 0 <= k < 4 ==> src[si + k] == AlphabetChar(v[k])
    ensures Quantum(src, si, []) == Ok(Step(si + 4, QuantumBytes(v)))
  {
    forall k | 0 <= k < 4
      ensures InAlphabet(src[si + k]) && CharValue(src[si + k]) == v[k]
    {
      CharValueOfAlphabetChar(v[k]);
    }
    assert v[..3] + [v[3]] == v;
    assert v[..2] + [v[2]] == v[..3];
    assert v[..1] + [v[1]] == v[..2];
    assert [] + [v[0]] == v[..1];
    var r := Ok(Step(si + 4, QuantumBytes(v)));
    assert Quantum(src, si + 3, v[..3]) == r;
    assert Quantum(src, si + 2, v[..2]) == r;
    assert Quantum(src, si + 1, v[..1]) == r;
  }

  /** A full group of four alphabet characters decodes to its three bytes. */
  lemma QuantumOfGroup(src: string, si: nat, b0: Byte, b1: Byte, b2: Byte)
    requires si + 4 <= |src| && src[si..si + 4] == EncodeGroup(b0, b1, b2)
    ensures Quantum(src, si, []) == Ok(Step(si + 4, [b0, b1, b2]))
  {
    var v := [b0 / 4, (b0 % 4) * 16 + b1 / 16, (b1 % 16) * 4 + b2 / 64, b2 % 64];
    var g := src[si..si + 4];
    assert src[si] == g[0] == AlphabetChar(v[0]);
    assert src[si + 1] == g[1] == AlphabetChar(v[1]);
    assert src[si + 2] == g[2] == AlphabetChar(v[2]);
    assert src[si + 3] == g[3] == AlphabetChar(v[3]);
    QuantumOfChars(src, si, v);
    QuantumBytesOfGroup(b0, b1, b2);
  }

  /** Two alphabet characters followed by "==" at the end decode to the first byte of their values. */
  lemma QuantumOfTwoChars(src: string, si: nat, v: seq<nat>)
    requires |v| == 2 && v[0] < 64 && v[1] < 64
    requires si + 4 == |src| && src[si] == AlphabetChar(v[0]) && src[si + 1] == AlphabetChar(v[1])
    requires src[si + 2] == '=' && src[si + 3] == '='
    ensures Quantum(src, si, []) == Ok(Step(|src|, QuantumBytes(v)))
  {
    CharValueOfAlphabetChar(v[0]);
    CharValueOfAlphabetChar(v[1]);
    assert [v[0]] + [v[1]] == v;
    assert SkipNewlines(src, si + 3) == si + 3;
    assert SkipNewlines(src, si + 4) == si + 4;
    assert Finish(src, si + 4, v) == Ok(Step(|src|, QuantumBytes(v)));
    assert Quantum(src, si + 2, v) == Finish(src, si + 4, v);
    assert Quantum(src, si + 1, [v[0]]) == Quantum(src, si + 2, v);
    assert [] + [v[0]] == [v[0]];
  }

  /** Three alphabet characters followed by "=" at the end decode to the first two bytes of their values. */
  lemma QuantumOfThreeChars(src: string, si: nat, v: seq<nat>)
    requires |v| == 3 && v[0] < 64 && v[1] < 64 && v[2] < 64
    requires si + 4 == |src| && src[si] == AlphabetChar(v[0]) && src[si + 1] == AlphabetChar(v[1])
    requires src[si + 2] == AlphabetChar(v[2]) && src[si + 3] == '='
    ensures Quantum(src, si, []) == Ok(Step(|src|, QuantumBytes(v)))
  {
    CharValueOfAlphabetChar(v[0]);
    CharValueOfAlphabetChar(v[1]);
    CharValueOfAlphabetChar(v[2]);
    assert [v[0]] + [v[1]] == v[..2];
    assert v[..2] + [v[2]] == v;
    assert SkipNewlines(src, si + 4) == si + 4;
    assert Finish(src, si + 4, v) == Ok(Step(|src|, QuantumBytes(v)));
    assert Quantum(src, si + 3, v) == Finish(src, si + 4, v);
    assert Quantum(src, si + 2, v[..2]) == Quantum(src, si + 3, v);
    assert Quantum(src, si + 1, [v[0]]) == Quantum(src, si + 2, v[..2]);
    assert [] + [v[0]] == [v[0]];
  }

  /** A zero value added to a short quantum only adds a byte. */
  lemma QuantumBytesPadded(v: seq<nat>)
    requires 2 <= |v| <= 3 && forall i :: 0 <= i < |v| ==> v[i] < 64
    ensures QuantumBytes(v) == QuantumBytes(v + [0])[..|v| - 1]
  {
    var d, e := v + [0, 0], v + [0] + [0, 0];
    assert d[0] == e[0] && d[1] == e[1] && d[2] == e[2] && d[3] == e[3];
  }

  lemma QuantumOfOneByte(src: string, si: nat, b0: Byte)
    requires si + 4 == |src| && src[si..] == EncodeGroup(b0, 0, 0)[..2] + "=="
    ensures Quantum(src, si, []) == Ok(Step(|src|, [b0]))
  {
    var v := [b0 / 4, (b0 % 4) * 16];
    var g := src[si..];
    assert src[si] == AlphabetChar(v[0]) && src[si + 1] == AlphabetChar(v[1]) && src[si + 2] == '=' && src[si + 3] == '=' by {
      assert src[si] == g[0] && src[si + 1] == g[1] && src[si + 2] == g[2] && src[si + 3] == g[3];
    }
    assert QuantumBytes(v) == [b0] by {
      QuantumBytesOfGroup(b0, 0, 0);
      assert [b0 / 4, (b0 % 4) * 16 + 0 / 16, (0 % 16) * 4 + 0 / 64, 0 % 64] == v + [0] + [0];
      QuantumBytesPadded(v);
      QuantumBytesPadded(v + [0]);
    }
    QuantumOfTwoChars(src, si, v);
  }

  lemma QuantumOfTwoBytes(src: string, si: nat, b0: Byte, b1: Byte)
    requires si + 4 == |src| && src[si..] == EncodeGroup(b0, b1, 0)[..3] + "="
    ensures Quantum(src, si, []) == Ok(Step(|src|, [b0, b1]))
  {
    var v := [b0 / 4, (b0 % 4) * 16 + b1 / 16, (b1 % 16) * 4];
    var g := src[si..];
    assert src[si] == AlphabetChar(v[0]) && src[si + 1] == AlphabetChar(v[1]) && src[si + 2] == AlphabetChar(v[2]) && src[si + 3] == '=' by {
      assert src[si] == g[0] && src[si + 1] == g[1] && src[si + 2] == g[2] && src[si + 3] == g[3];
    }
    assert QuantumBytes(v) == [b0, b1] by {
      QuantumBytesOfGroup(b0, b1, 0);
      assert [b0 / 4, (b0 % 4) * 16 + b1 / 16, (b1 % 16) * 4 + 0 / 64, 0 % 64] == v + [0];
      QuantumBytesPadded(v);
    }
    QuantumOfThreeChars(src, si, v);
  }

  /** A quantum that reaches the end of the input is the whole of what is left to decode. */
  lemma DecodeFromLastQuantum(src: string, si: nat, bytes: seq<Byte>)
    requires si < |src| && Quantum(src, si, []) == Ok(Step(|src|, bytes))
    ensures DecodeFrom(src, si) == Ok(bytes)
  {
    assert DecodeFrom(src, |src|) == Ok([]);
    assert bytes + [] == bytes;
  }

  /** The final, padded quantum of one or two bytes decodes to those bytes. */
  lemma DecodeFromPadded(src: string, si: nat, bs: seq<Byte>)
    requires 1 <= |bs| <= 2 && si <= |src| && src[si..] == Encode(bs)
    ensures DecodeFrom(src, si) == Ok(bs)
  {
    assert |src[si..]| == 4;
    if |bs| == 1 {
      QuantumOfOneByte(src, si, bs[0]);
      assert [bs[0]] == bs;
    } else {
      QuantumOfTwoBytes(src, si, bs[0], bs[1]);
      assert [bs[0], bs[1]] == bs;
    }
    DecodeFromLastQuantum(src, si, bs);
  }

  /** A full quantum of three bytes is followed by the encoding of the rest. */
  lemma EncodedGroup(src: string, si: nat, bs: seq<Byte>)
    requires |bs| >= 3 && si <= |src| && src[si..] == Encode(bs)
    ensures si + 4 <= |src| && src[si + 4..] == Encode(bs[3..])
    ensures Quantum(src, si, []) == Ok(Step(si + 4, bs[..3]))
  {
    var g := EncodeGroup(bs[0], bs[1], bs[2]);
    assert src[si..] == g + Encode(bs[3..]);
    assert src[si..si + 4] == g;
    QuantumOfGroup(src, si, bs[0], bs[1], bs[2]);
    assert [bs[0], bs[1], bs[2]] == bs[..3];
    assert src[si + 4..] == src[si..][4..];
  }

  lemma {:induction false} DecodeFromEncode(src: string, si: nat, bs: seq<Byte>)
    requires si <= |src| && src[si..] == Encode(bs)
    ensures DecodeFrom(src, si) == Ok(bs)
    decreases |bs|
  {
    if |bs| == 0 {
    } else if |bs| <= 2 {
      DecodeFromPadded(src, si, bs);
    } else {
      EncodedGroup(src, si, bs);
      DecodeFromEncode(src, si + 4, bs[3..]);
      assert bs[..3] + bs[3..] == bs;
    }
  }

  /** Decoding undoes encoding: every byte string survives the round trip. */
  lemma DecodeStringEncode(bs: seq<Byte>)
    ensures DecodeString(Encode(bs)) == Ok(bs)
  {
    var src := Encode(bs);
    assert src[0..] == src;
    DecodeFromEncode(src, 0, bs);
  }

  /** A byte that is neither in the alphabet, nor padding, nor a newline. */
  predicate IsForeign(c: char) {
    !InAlphabet(c) && !IsNewline(c) && c != '='
  }

  /** No quantum decodes past a foreign byte. */
  lemma {:induction false} QuantumStopsAtForeign(src: string, si: nat, vals: seq<nat>, i: nat)
    requires si <= |src| && |vals| < 4 && |vals| <= si
    requires forall k :: 0 <= k < |vals| ==> vals[k] < 64
    requires si <= i < |src| && IsForeign(src[i])
    ensures Quantum(src, si, vals).Ok? ==> Quantum(src, si, vals).value.next <= i
    decreases |src| - si
  {
    if si < |src| && si < i {
      var c := src[si];
      if InAlphabet(c) {
        var more := vals + [CharValue(c)];
        if |more| < 4 {
          QuantumStopsAtForeign(src, si + 1, more, i);
        }
      } else if IsNewline(c) {
        QuantumStopsAtForeign(src, si + 1, vals, i);
      }
    }
  }

  lemma {:induction false} DecodeFromStopsAtForeign(src: string, si: nat, i: nat)
    requires si <= i < |src| && IsForeign(src[i])
    ensures DecodeFrom(src, si).Err?
    decreases |src| - si
  {
    QuantumStopsAtForeign(src, si, [], i);
    match Quantum(src, si, [])
    case Err(_) =>
    case Ok(step) =>
      DecodeFromStopsAtForeign(src, step.next, i);
  }

  /** A foreign byte anywhere at or after the start makes decoding fail. */
  lemma DecodeFromRejectsForeign(src: string, si: nat)
    requires si <= |src|
    ensures (exists i :: si <= i < |src| && IsForeign(src[i])) ==> DecodeFrom(src, si).Err?
  {
    if exists i :: si <= i < |src| && IsForeign(src[i]) {
      var i :| si <= i < |src| && IsForeign(src[i]);
      DecodeFromStopsAtForeign(src, si, i);
    }
  }

  /** The encoder writes only alphabet characters and padding. */
  lemma {:induction false} EncodeChars(bs: seq<Byte>)
    ensures forall i :: 0 <= i < |Encode(bs)| ==> InAlphabet(Encode(bs)[i]) || Encode(bs)[i] == '='
    decreases |bs|
  {
    if |bs| >= 3 {
      EncodeChars(bs[3..]);
      var g := EncodeGroup(bs[0], bs[1], bs[2]);
      assert Encode(bs) == g + Encode(bs[3..]);
      forall i | 0 <= i < |Encode(bs)|
        ensures InAlphabet(Encode(bs)[i]) || Encode(bs)[i] == '='
      {
        if i >= 4 {
          assert Encode(bs)[i] == Encode(bs[3..])[i - 4];
        }
      }
    }
  }
}
