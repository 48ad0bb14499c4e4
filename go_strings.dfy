/**
 * The parts of Go's `strings` package the accessors rely on: `TrimSpace`,
 * `HasPrefix`, `TrimPrefix` and `Split` (with its inverse `Join`).
 * A Go string is a sequence of bytes; here each character stands for one byte.
 */
module GoStrings {

  /** The ASCII white space `strings.TrimSpace` removes: tab, newline, vertical tab, form feed, carriage return, space. */
  predicate IsSpace(c: char) {
    c == ' ' || c == '\t' || c == '\n' || c == '\U{0B}' || c == '\U{0C}' || c == '\r'
  }

  predicate AllSpace(s: string) {
    forall i :: 0 <= i < |s| ==> IsSpace(s[i])
  }

  /** Drops leading white space: the result is the suffix that remains after the longest all-space prefix. */
  function TrimLeft(s: string): (r: string)
    ensures |r| <= |s| && r == s[|s| - |r|..]
    ensures forall i :: 0 <= i < |s| - |r| ==> IsSpace(s[i])
    ensures r == [] || !IsSpace(r[0])
  {
    if |s| > 0 && IsSpace(s[0]) then
      var r := TrimLeft(s[1..]);
      assert s[1..][|s| - 1 - |r|..] == s[|s| - |r|..];
      r
    else
      s
  }

  /** Drops trailing white space: the result is the prefix that remains before the longest all-space suffix. */
  function TrimRight(s: string): (r: string)
    ensures |r| <= |s| && r == s[..|r|]
    ensures forall i :: |r| <= i < |s| ==> IsSpace(s[i])
    ensures r == [] || !IsSpace(r[|r| - 1])
  {
    if |s| > 0 && IsSpace(s[|s| - 1]) then
      var r := TrimRight(s[..|s| - 1]);
      assert s[..|s| - 1][..|r|] == s[..|r|];
      r
    else
      s
  }

  /** `strings.TrimSpace`: drops white space at both ends; the result neither starts nor ends with it. */
  function TrimSpace(s: string): (r: string)
    ensures r == [] || (!IsSpace(r[0]) && !IsSpace(r[|r| - 1]))
  {
    TrimRight(TrimLeft(s))
  }

  /** Trimming is idempotent. */
  lemma TrimSpaceIdempotent(s: string)
    ensures TrimSpace(TrimSpace(s)) == TrimSpace(s)
  {
    var r := TrimSpace(s);
    assert TrimLeft(r) == r;
    assert TrimRight(r) == r;
  }

  /** Trimming only removes characters: a character absent from the input is absent from the result. */
  lemma TrimSpaceAvoids(s: string, c: char)
    requires c !in s
    ensures c !in TrimSpace(s)
  {
    var l := TrimLeft(s);
    assert c !in l by {
      assert forall k :: 0 <= k < |l| ==> l[k] == s[|s| - |l| + k];
    }
    var r := TrimRight(l);
    assert forall k :: 0 <= k < |r| ==> r[k] == l[k];
  }

  /** A string that neither starts nor ends with white space is left as it is. */
  lemma TrimSpaceKeeps(s: string)
    requires s == [] || (!IsSpace(s[0]) && !IsSpace(s[|s| - 1]))
    ensures TrimSpace(s) == s
  {
    assert TrimLeft(s) == s;
  }

  lemma {:induction false} TrimLeftSkips(w: string, x: string)
    requires AllSpace(w)
    ensures TrimLeft(w + x) == TrimLeft(x)
    decreases |w|
  {
    if w != [] {
      assert (w + x)[1..] == w[1..] + x;
      TrimLeftSkips(w[1..], x);
    } else {
      assert w + x == x;
    }
  }

  lemma {:induction false} TrimRightSkips(x: string, w: string)
    requires AllSpace(w)
    ensures TrimRight(x + w) == TrimRight(x)
    decreases |w|
  {
    if w != [] {
      assert (x + w)[..|x + w| - 1] == x + w[..|w| - 1];
      TrimRightSkips(x, w[..|w| - 1]);
    } else {
      assert x + w == x;
    }
  }

  /** Once the white space at the front is gone, more text at the back does not change where trimming stops. */
  lemma {:induction false} TrimLeftAppend(x: string, y: string)
    requires TrimLeft(x) != []
    ensures TrimLeft(x + y) == TrimLeft(x) + y
    decreases |x|
  {
    if IsSpace(x[0]) {
      assert (x + y)[1..] == x[1..] + y;
      TrimLeftAppend(x[1..], y);
    }
  }

  /** A string trims to the empty string exactly when it is all white space. */
  lemma TrimSpaceEmpty(s: string)
    ensures TrimSpace(s) == [] <==> AllSpace(s)
  {
    if AllSpace(s) {
      TrimLeftSkips(s, []);
      assert s + [] == s;
    }
  }

  /** White space added around a string never changes what it trims to. */
  lemma TrimSpacePadded(w1: string, s: string, w2: string)
    requires AllSpace(w1) && AllSpace(w2)
    ensures TrimSpace(w1 + s + w2) == TrimSpace(s)
  {
    assert w1 + s + w2 == w1 + (s + w2);
    TrimLeftSkips(w1, s + w2);
    if TrimLeft(s) == [] {
      assert AllSpace(s);
      assert AllSpace(s + w2);
      TrimLeftSkips(s + w2, []);
      assert s + w2 + [] == s + w2;
    } else {
      TrimLeftAppend(s, w2);
      TrimRightSkips(TrimLeft(s), w2);
    }
  }

  /** `strings.HasPrefix`. */
  predicate HasPrefix(s: string, prefix: string) {
    |prefix| <= |s| && s[..|prefix|] == prefix
  }

  /** A text has a prefix exactly when it is that prefix followed by some rest. */
  lemma HasPrefixConcat(s: string, prefix: string)
    ensures HasPrefix(s, prefix) <==> exists rest :: s == prefix + rest
  {
    if HasPrefix(s, prefix) {
      assert s == prefix + s[|prefix|..];
    }
    if exists rest :: s == prefix + rest {
      var rest :| s == prefix + rest;
      assert s[..|prefix|] == prefix;
    }
  }

  /** `strings.TrimPrefix`: drops `prefix` when `s` starts with it. */
  function TrimPrefix(s: string, prefix: string): (r: string)
    ensures HasPrefix(s, prefix) ==> prefix + r == s
    ensures !HasPrefix(s, prefix) ==> r == s
  {
    if HasPrefix(s, prefix) then s[|prefix|..] else s
  }

  /**
   * `strings.Split` with a one-character separator: the pieces between
   * separators, one more piece than there are separators. Joining them with
   * the separator gives the text back, and no piece holds the separator.
   */
  function Split(s: string, sep: char): (r: seq<string>)
    ensures |r| >= 1
    ensures Join(r, sep) == s && SeparatorFree(r, sep)
  {
    SplitFromParts(s, sep, 0, 0);
    SplitFrom(s, sep, 0, 0)
  }

  /**
   * The scan behind `Split`: the current piece began at `start`, and `i` is
   * the next position to look at for a separator.
   */
  function SplitFrom(s: string, sep: char, start: nat, i: nat): (r: seq<string>)
    requires start <= i <= |s|
    ensures |r| >= 1
    decreases |s| - i
  {
    if i == |s| then [s[start..]]
    else if s[i] == sep then [s[start..i]] + SplitFrom(s, sep, i + 1, i + 1)
    else SplitFrom(s, sep, start, i + 1)
  }

  /** `strings.Join`, the inverse of `Split`. */
  function Join(pieces: seq<string>, sep: char): string
    requires |pieces| >= 1
  {
    if |pieces| == 1 then pieces[0] else pieces[0] + [sep] + Join(pieces[1..], sep)
  }

  /** No piece holds the separator. */
  predicate SeparatorFree(pieces: seq<string>, sep: char) {
    forall k :: 0 <= k < |pieces| ==> sep !in pieces[k]
  }

  lemma {:induction false} SplitFromParts(s: string, sep: char, start: nat, i: nat)
    requires start <= i <= |s|
    requires sep !in s[start..i]
    ensures Join(SplitFrom(s, sep, start, i), sep) == s[start..]
    ensures SeparatorFree(SplitFrom(s, sep, start, i), sep)
    decreases |s| - i
  {
    if i < |s| {
      if s[i] == sep {
        var rest := SplitFrom(s, sep, i + 1, i + 1);
        SplitFromParts(s, sep, i + 1, i + 1);
        assert ([s[start..i]] + rest)[1..] == rest;
        assert s[start..] == s[start..i] + [sep] + s[i + 1..];
      } else {
        assert s[start..i + 1] == s[start..i] + [s[i]];
        SplitFromParts(s, sep, start, i + 1);
      }
    }
  }

  /** The scan passes over a separator-free stretch without cutting. */
  lemma {:induction false} SplitFromSkips(s: string, sep: char, start: nat, i: nat, j: nat)
    requires start <= i <= j <= |s|
    requires sep !in s[i..j]
    ensures SplitFrom(s, sep, start, i) == SplitFrom(s, sep, start, j)
    decreases j - i
  {
    if i < j {
      assert s[i] in s[i..j];
      assert s[i + 1..j] == s[i..j][1..];
      SplitFromSkips(s, sep, start, i + 1, j);
    }
  }

  /** One piece of a split: the text from `start` up to the next separator or the end. */
  lemma SplitFromPiece(s: string, sep: char, start: nat, end: nat)
    requires start <= end <= |s|
    requires sep !in s[start..end]
    ensures end == |s| ==> SplitFrom(s, sep, start, start) == [s[start..]]
    ensures end < |s| && s[end] == sep ==>
      SplitFrom(s, sep, start, start) == [s[start..end]] + SplitFrom(s, sep, end + 1, end + 1)
  {
    SplitFromSkips(s, sep, start, start, end);
  }

  /** The scan of a suffix is the scan of the whole string, shifted. */
  lemma {:induction false} SplitFromShift(s: string, sep: char, k: nat, start: nat, i: nat)
    requires k + start <= k + i <= |s|
    ensures SplitFrom(s, sep, k + start, k + i) == SplitFrom(s[k..], sep, start, i)
    decreases |s| - i
  {
    var t := s[k..];
    if k + i < |s| {
      assert t[i] == s[k + i];
      if s[k + i] == sep {
        assert t[start..i] == s[k + start..k + i];
        SplitFromShift(s, sep, k, i + 1, i + 1);
      } else {
        SplitFromShift(s, sep, k, start, i + 1);
      }
    } else {
      assert t[start..] == s[k + start..];
    }
  }

  /** A separator-free piece followed by the separator splits off as the first piece. */
  lemma SplitPrefix(s: string, sep: char, piece: string, rest: string)
    requires s == piece + [sep] + rest
    requires sep !in piece
    ensures Split(s, sep) == [piece] + Split(rest, sep)
  {
    var n := |piece|;
    assert s[0..n] == piece;
    assert s[n] == sep;
    SplitFromPiece(s, sep, 0, n);
    SplitFromShift(s, sep, n + 1, 0, 0);
    assert s[n + 1..] == rest;
  }

  /** Joining two runs of pieces puts a separator between their joins. */
  lemma {:induction false} JoinAppend(a: seq<string>, b: seq<string>, sep: char)
    requires |a| >= 1 && |b| >= 1
    ensures Join(a + b, sep) == Join(a, sep) + [sep] + Join(b, sep)
    decreases |a|
  {
    if |a| > 1 {
      assert (a + b)[1..] == a[1..] + b;
      JoinAppend(a[1..], b, sep);
    }
  }

  /** A separator-free piece after the last separator splits off as the last piece. */
  lemma SplitSuffix(s: string, sep: char, rest: string, piece: string)
    requires s == rest + [sep] + piece
    requires sep !in piece
    ensures Split(s, sep) == Split(rest, sep) + [piece]
  {
    var pieces := Split(rest, sep) + [piece];
    JoinAppend(Split(rest, sep), [piece], sep);
    assert SeparatorFree(pieces, sep);
    SplitJoin(pieces, sep);
  }

  /** A string without the separator is a single piece. */
  lemma SplitWhole(s: string, sep: char)
    requires sep !in s
    ensures Split(s, sep) == [s]
  {
    SplitFromPiece(s, sep, 0, |s|);
    assert s[0..] == s;
  }

  /** The first piece of a join ends at its first separator. */
  lemma JoinFirstPiece(pieces: seq<string>, sep: char)
    requires |pieces| >= 1 && SeparatorFree(pieces, sep)
    ensures |pieces| == 1 ==> sep !in Join(pieces, sep)
    ensures |pieces| > 1 ==> |pieces[0]| < |Join(pieces, sep)| && Join(pieces, sep)[|pieces[0]|] == sep
    ensures |pieces| > 1 ==> Join(pieces, sep)[..|pieces[0]|] == pieces[0]
  {
    assert sep !in pieces[0];
  }

  /** Separator-free pieces are determined by their join. */
  lemma {:induction false} JoinInjective(a: seq<string>, b: seq<string>, sep: char)
    requires |a| >= 1 && |b| >= 1
    requires SeparatorFree(a, sep) && SeparatorFree(b, sep)
    requires Join(a, sep) == Join(b, sep)
    ensures a == b
    decreases |a|
  {
    var j := Join(a, sep);
    JoinFirstPiece(a, sep);
    JoinFirstPiece(b, sep);
    assert |a| == 1 <==> |b| == 1;
    assert |a| > 1 ==> |a[0]| == |b[0]|;
    if |a| > 1 && |b| > 1 && |a[0]| == |b[0]| {
      assert a[0] == j[..|a[0]|] == b[0];
      assert Join(a[1..], sep) == j[|a[0]| + 1..] == Join(b[1..], sep);
      JoinInjective(a[1..], b[1..], sep);
      assert a == [a[0]] + a[1..];
      assert b == [b[0]] + b[1..];
    }
  }

  /** Splitting the join of separator-free pieces gives the pieces back. */
  lemma SplitJoin(pieces: seq<string>, sep: char)
    requires |pieces| >= 1
    requires SeparatorFree(pieces, sep)
    ensures Split(Join(pieces, sep), sep) == pieces
  {
    JoinInjective(Split(Join(pieces, sep), sep), pieces, sep);
  }
}
