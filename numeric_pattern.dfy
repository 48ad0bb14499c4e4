/**
 * The strict numeric pattern of bool.go, `^[+-]?((\d+\.?\d*)|(\.\d+))([eE][+-]?\d+)?$`.
 * A `Numeral` is the parse of one match; `Render` writes it back, and `Scan`
 * decides the pattern. The two are inverse on well-formed numerals, so `Scan`
 * succeeds exactly on the strings the regular expression matches.
 */
module NumericPattern {
  import opened Wrappers
  import opened GoStrconv

  /** `[eE][+-]?\d+` */
  datatype Exponent = Exponent(marker: char, sign: string, digits: string)

  /**
   * `[+-]?`, then the integer digits, whether a point follows, the fraction
   * digits and the exponent. A fraction exists only after a point, so each
   * match has exactly one `Numeral`.
   */
  datatype Numeral = Numeral(sign: string, whole: string, dot: bool, frac: string, exponent: Option<Exponent>)

  predicate IsSign(s: string) {
    s == "" || s == "+" || s == "-"
  }

  predicate WellFormedExponent(e: Exponent) {
    (e.marker == 'e' || e.marker == 'E') && IsSign(e.sign) && |e.digits| > 0 && AllDigits(e.digits)
  }

  predicate WellFormed(n: Numeral) {
    && IsSign(n.sign)
    && AllDigits(n.whole) && AllDigits(n.frac)
    && (n.dot || n.frac == "")
    // `\d+\.?\d*` needs a digit before the point, `\.\d+` one after it
    && (|n.whole| > 0 || |n.frac| > 0)
    && (n.exponent.Some? ==> WellFormedExponent(n.exponent.value))
  }

  function RenderExponent(e: Option<Exponent>): string {
    match e
    case None => ""
    case Some(x) => [x.marker] + x.sign + x.digits
  }

  function MantissaText(whole: string, dot: bool, frac: string): string {
    whole + (if dot then "." else "") + frac
  }

  function Render(n: Numeral): string {
    n.sign + (MantissaText(n.whole, n.dot, n.frac) + RenderExponent(n.exponent))
  }

  /** The language of the regular expression: the renderings of well-formed numerals. */
  ghost predicate MatchesNumericPattern(s: string) {
    exists n :: WellFormed(n) && Render(n) == s
  }

  function SignLength(s: string): (k: nat)
    ensures k <= |s| && IsSign(s[..k])
  {
    if |s| > 0 && (s[0] == '+' || s[0] == '-') then 1 else 0
  }

  /** What follows the mantissa: nothing, or a complete exponent (`None` when neither). */
  function ScanExponent(s: string): Option<Option<Exponent>> {
    if s == "" then
      Some(None)
    else if s[0] == 'e' || s[0] == 'E' then
      var rest := s[1..];
      var k := SignLength(rest);
      var digits := rest[k..];
      if |digits| > 0 && DigitRun(digits) == |digits| then Some(Some(Exponent(s[0], rest[..k], digits))) else None
    else
      None
  }

  /**
   * `\d+\.?\d*` or `\.\d+` at the front of `u`, read greedily: the integer
   * digits, whether a point follows, the fraction digits and what is left.
   */
  function ScanMantissa(u: string): Option<(string, bool, string, string)> {
    var w := DigitRun(u);
    if w < |u| && u[w] == '.' then
      var afterDot := u[w + 1..];
      var f := DigitRun(afterDot);
      if w == 0 && f == 0 then None else Some((u[..w], true, afterDot[..f], afterDot[f..]))
    else if w == 0 then
      None
    else
      Some((u[..w], false, "", u[w..]))
  }

  /**
   * Decides the pattern: an optional sign, the mantissa, then an exponent or
   * the end. What it returns is a well-formed numeral that renders back to
   * the scanned text.
   */
  function Scan(s: string): (r: Option<Numeral>)
    ensures r.Some? ==> WellFormed(r.value) && Render(r.value) == s
  {
    var k := SignLength(s);
    match ScanMantissa(s[k..])
    case None => None
    case Some((whole, dot, frac, rest)) =>
      ScanMantissaSound(s[k..]);
      match ScanExponent(rest)
      case None => None
      case Some(e) =>
        ScanExponentSound(rest);
        assert s == s[..k] + s[k..];
        Some(Numeral(s[..k], whole, dot, frac, e))
  }

  lemma ScanExponentSound(s: string)
    requires ScanExponent(s).Some?
    ensures var e := ScanExponent(s).value; (e.Some? ==> WellFormedExponent(e.value)) && RenderExponent(e) == s
  {
    if s != "" {
      var rest := s[1..];
      var k := SignLength(rest);
      assert rest == rest[..k] + rest[k..];
      assert s == [s[0]] + rest;
    }
  }

  lemma ScanExponentRender(e: Option<Exponent>)
    requires e.Some? ==> WellFormedExponent(e.value)
    ensures ScanExponent(RenderExponent(e)) == Some(e)
  {
    if e.Some? {
      var x := e.value;
      var s := RenderExponent(e);
      var rest := s[1..];
      assert rest == x.sign + x.digits;
      assert SignLength(rest) == |x.sign|;
      assert rest[|x.sign|..] == x.digits;
      DigitRunAll(x.digits, []);
      assert x.digits + [] == x.digits;
    }
  }

  lemma ScanMantissaSound(u: string)
    requires ScanMantissa(u).Some?
    ensures var (whole, dot, frac, rest) := ScanMantissa(u).value;
      && AllDigits(whole) && AllDigits(frac) && (dot || frac == "") && (|whole| > 0 || |frac| > 0)
      && MantissaText(whole, dot, frac) + rest == u
  {
    var w := DigitRun(u);
    if w < |u| && u[w] == '.' {
      var afterDot := u[w + 1..];
      var f := DigitRun(afterDot);
      PointMantissaParts(u, w, f);
      assert ScanMantissa(u).value == (u[..w], true, afterDot[..f], afterDot[f..]);
    } else {
      assert u[..w] + u[w..] == u;
      assert ScanMantissa(u).value == (u[..w], false, "", u[w..]);
    }
  }

  /** The digits, the point, the fraction digits and the rest make up the mantissa text again. */
  lemma PointMantissaParts(u: string, w: nat, f: nat)
    requires w < |u| && u[w] == '.' && f <= |u| - w - 1
    ensures MantissaText(u[..w], true, u[w + 1..][..f]) + u[w + 1..][f..] == u
  {
    var afterDot := u[w + 1..];
    assert afterDot[..f] + afterDot[f..] == afterDot;
    assert u[..w] + "." + afterDot == u;
  }

  lemma ScanMantissaRender(whole: string, dot: bool, frac: string, rest: string)
    requires AllDigits(whole) && AllDigits(frac) && (dot || frac == "") && (|whole| > 0 || |frac| > 0)
    requires rest == [] || (rest[0] != '.' && !IsDigit(rest[0]))
    ensures ScanMantissa(MantissaText(whole, dot, frac) + rest) == Some((whole, dot, frac, rest))
  {
    if dot {
      assert MantissaText(whole, dot, frac) + rest == whole + ("." + (frac + rest));
      ScanPointMantissa(whole, frac, rest);
    } else {
      assert MantissaText(whole, dot, frac) + rest == whole + rest;
      ScanIntegerMantissa(whole, rest);
    }
  }

  /** A mantissa with a point: the digits before it, the point, the digits after it. */
  lemma ScanPointMantissa(whole: string, frac: string, rest: string)
    requires AllDigits(whole) && AllDigits(frac) && (|whole| > 0 || |frac| > 0)
    requires rest == [] || (rest[0] != '.' && !IsDigit(rest[0]))
    ensures ScanMantissa(whole + ("." + (frac + rest))) == Some((whole, true, frac, rest))
  {
    var afterDot := frac + rest;
    var u := whole + ("." + afterDot);
    DigitRunAll(whole, "." + afterDot);
    assert u[..|whole|] == whole && u[|whole|] == '.' && u[|whole| + 1..] == afterDot;
    DigitRunAll(frac, rest);
    assert afterDot[..|frac|] == frac && afterDot[|frac|..] == rest;
  }

  /** A mantissa without a point: its digits, then what follows. */
  lemma ScanIntegerMantissa(whole: string, rest: string)
    requires AllDigits(whole) && |whole| > 0
    requires rest == [] || (rest[0] != '.' && !IsDigit(rest[0]))
    ensures ScanMantissa(whole + rest) == Some((whole, false, "", rest))
  {
    var u := whole + rest;
    DigitRunAll(whole, rest);
    assert u[..|whole|] == whole && u[|whole|..] == rest;
  }

  /** `Scan` reads every well-formed numeral back from its rendering. */
  lemma ScanRender(n: Numeral)
    requires WellFormed(n)
    ensures Scan(Render(n)) == Some(n)
  {
    var tail := RenderExponent(n.exponent);
    var u := MantissaText(n.whole, n.dot, n.frac) + tail;
    var s := Render(n);
    assert tail == [] || tail[0] == 'e' || tail[0] == 'E';
    if n.sign == "" {
      assert s == u;
      if n.whole != [] {
        assert u[0] == n.whole[0];
      } else {
        assert u[0] == '.';
      }
    } else {
      assert s[1..] == u;
    }
    assert SignLength(s) == |n.sign| && s[..|n.sign|] == n.sign && s[|n.sign|..] == u;
    ScanMantissaRender(n.whole, n.dot, n.frac, tail);
    ScanExponentRender(n.exponent);
  }

  /** `Scan` decides exactly the language of the regular expression. */
  lemma ScanDecides(s: string)
    ensures Scan(s).Some? <==> MatchesNumericPattern(s)
  {
    if MatchesNumericPattern(s) {
      var n :| WellFormed(n) && Render(n) == s;
      ScanRender(n);
    }
  }
}
