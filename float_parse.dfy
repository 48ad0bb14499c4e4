/**
 * `strconv.ParseFloat(s, 64)` on the strings the numeric pattern of bool.go
 * admits, reduced to what bool.go looks at: whether the call fails, and the
 * sign of the float64 it returns. ParseFloat rounds the exact decimal value
 * to the nearest float64, ties to even; it fails with a range error when that
 * is an infinity, and returns a (possibly negative) zero when the value is at
 * most half the smallest subnormal.
 */
module FloatParse {
  import opened Wrappers
  import opened GoStrconv
  import opened NumericPattern

  /**
   * The exponent digits as ParseFloat reads them: each digit is accumulated
   * only while the value read so far is below 10000, so longer exponents
   * saturate instead of overflowing.
   */
  function SaturatedExponent(digits: string, acc: nat): nat
    requires AllDigits(digits)
  {
    if digits == [] then acc
    else SaturatedExponent(digits[1..], if acc < 10000 then acc * 10 + DigitValue(digits[0]) else acc)
  }

  function ExponentValue(e: Option<Exponent>): int
    requires e.Some? ==> WellFormedExponent(e.value)
  {
    match e
    case None => 0
    case Some(x) =>
      var v: int := SaturatedExponent(x.digits, 0);
      if x.sign == "-" then -v else v
  }

  /** All the digits of the mantissa as one integer; the numeral's magnitude is Mantissa(n) * 10^Scale(n). */
  function Mantissa(n: Numeral): nat
    requires WellFormed(n)
  {
    DigitsValue(n.whole + n.frac)
  }

  function Scale(n: Numeral): int
    requires WellFormed(n)
  {
    ExponentValue(n.exponent) - |n.frac|
  }

  /** 2^1024 - 2^970, halfway between the largest finite float64 and 2^1024: from here on the value rounds to infinity. */
  const OverflowThreshold: nat := 179769313486231580793728971405303415079934132710037826936173778980444968292764750946649017977587207096330286416692887910946555547851940402630657488671505820681908902000708383676273854845817711531764475730270069855571366959622842914819860834936475292719074168444365510704342711559699508093042880177904174497792

  /** 2^1075: a magnitude of at most 1 / 2^1075, half the smallest subnormal, rounds to zero. */
  const UnderflowScale: nat := 404804506614621236704990693437834614099113299528284236713802716054860679135990693783920767402874248990374155728633623822779617474771586953734026799881477019843034848553132722728933815484186432682479535356945490137124014966849385397236206711298319112681620113024717539104666829230461005064372655017292012526615415482186989568

  /** m * 10^k is at least the overflow threshold. */
  predicate Overflows(m: nat, k: int) {
    if k >= 0 then m * Pow10(k) >= OverflowThreshold else m >= OverflowThreshold * Pow10(-k)
  }

  /** m * 10^k is at most 1 / 2^1075. */
  predicate Underflows(m: nat, k: int) {
    k < 0 && m * UnderflowScale <= Pow10(-k)
  }

  datatype FloatSign = Negative | Zero | Positive

  /** The sign of the exact value a numeral denotes. */
  function ExactSign(n: Numeral): FloatSign
    requires WellFormed(n)
  {
    if Mantissa(n) == 0 then Zero else if n.sign == "-" then Negative else Positive
  }

  /**
   * The outcome of ParseFloat on a numeral: a range error on overflow, the
   * sign of the rounded float64 otherwise (negative zero counts as Zero).
   */
  function ParseFloat(n: Numeral): (r: Result<FloatSign, NumError>)
    requires WellFormed(n)
    ensures r.Err? <==> Mantissa(n) != 0 && Overflows(Mantissa(n), Scale(n))
    ensures r.Err? ==> r.error == ErrRange
    ensures r.Ok? && r.value != Zero ==> r.value == ExactSign(n)
    ensures r == Ok(Zero) <==> ExactSign(n) == Zero || (r.Ok? && Underflows(Mantissa(n), Scale(n)))
  {
    var m := Mantissa(n);
    var k := Scale(n);
    if m == 0 then Ok(Zero)
    else if Overflows(m, k) then Err(ErrRange)
    else if Underflows(m, k) then Ok(Zero)
    else if n.sign == "-" then Ok(Negative)
    else Ok(Positive)
  }

  lemma Pow10Of40()
    ensures Pow10(20) == 100000000000000000000
    ensures Pow10(40) == 10000000000000000000000000000000000000000
  {
    assert Pow10(10) == 10000000000;
    Pow10Sum(10, 10);
    Pow10Sum(20, 20);
  }

  lemma Pow10Of80()
    ensures Pow10(80) == 100000000000000000000000000000000000000000000000000000000000000000000000000000000
  {
    Pow10Of40();
    Pow10Sum(40, 40);
  }

  lemma Pow10Of160()
    ensures Pow10(160) == 10000000000000000000000000000000000000000000000000000000000000000000000000000000000000000000000000000000000000000000000000000000000000000000000000000000000000000
  {
    Pow10Of80();
    Pow10Sum(80, 80);
  }

  lemma Pow10Of300()
    ensures Pow10(300) == 1000000000000000000000000000000000000000000000000000000000000000000000000000000000000000000000000000000000000000000000000000000000000000000000000000000000000000000000000000000000000000000000000000000000000000000000000000000000000000000000000000000000000000000000000000000000000000000000000000000000000
  {
    Pow10Of40();
    Pow10Of80();
    Pow10Of160();
    Pow10Sum(160, 80);
    Pow10Sum(240, 40);
    Pow10Sum(280, 20);
  }

  lemma Pow10Of320()
    ensures Pow10(320) == 100000000000000000000000000000000000000000000000000000000000000000000000000000000000000000000000000000000000000000000000000000000000000000000000000000000000000000000000000000000000000000000000000000000000000000000000000000000000000000000000000000000000000000000000000000000000000000000000000000000000000000000000000000000
  {
    Pow10Of160();
    Pow10Sum(160, 160);
  }

  /** 10^300 < 2^1024 - 2^970 <= 10^309. */
  lemma OverflowThresholdBounds()
    ensures Pow10(300) < OverflowThreshold <= Pow10(309)
  {
    Pow10Of300();
    Pow10Sum(300, 9);
    assert Pow10(9) == 1000000000;
  }

  /** 10^320 < 2^1075 <= 10^324. */
  lemma UnderflowScaleBounds()
    ensures Pow10(320) < UnderflowScale <= Pow10(324)
  {
    Pow10Of320();
    Pow10Sum(320, 4);
    assert Pow10(4) == 10000;
  }

  /** A mantissa below 10^19 scaled by at most 10^280 stays below the overflow threshold. */
  lemma ModerateDoesNotOverflow(m: nat, k: int)
    requires m < Pow10(19) && k <= 280
    ensures !Overflows(m, k)
  {
    var p300 := Pow10(300);
    assert p300 < OverflowThreshold by { OverflowThresholdBounds(); }
    Pow10Monotone(19, 300);
    if k >= 0 {
      var pk := Pow10(k);
      Pow10Sum(19, k);
      Pow10Monotone(19 + k, 300);
      MulStrict(m, Pow10(19), pk);
    } else {
      MulAtLeast(OverflowThreshold, Pow10(-k));
    }
  }

  lemma MulStrict(a: nat, b: nat, c: nat)
    requires a < b && c >= 1
    ensures a * c < b * c
  {
  }

  lemma MulAtLeast(a: nat, c: nat)
    requires c >= 1
    ensures a <= a * c
  {
  }

  /** A non-zero mantissa scaled by at least 10^309 overflows. */
  lemma HugeOverflows(m: nat, k: int)
    requires m != 0 && k >= 309
    ensures Overflows(m, k)
  {
    OverflowThresholdBounds();
    Pow10Monotone(309, k);
    MulAtLeast(Pow10(k), m);
  }

  /** A mantissa below 10^d scaled by at most 10^-(d + 324) underflows. */
  lemma TinyUnderflows(m: nat, d: nat, k: int)
    requires m < Pow10(d) && d + 324 <= -k
    ensures Underflows(m, k)
  {
    var e := -k;
    UnderflowScaleAtMost(e - d);
    ProductBelowPow10(m, UnderflowScale, d, e - d, e);
  }

  lemma UnderflowScaleAtMost(e: nat)
    requires e >= 324
    ensures UnderflowScale <= Pow10(e)
  {
    UnderflowScaleBounds();
    Pow10Monotone(324, e);
  }

  /** A mantissa below 10^d scaled by at most 10^-d never overflows. */
  lemma ScaledDownDoesNotOverflow(m: nat, d: nat, k: int)
    requires m < Pow10(d) && d <= -k
    ensures !Overflows(m, k)
  {
    Pow10Monotone(d, -k);
    MulAtLeast(Pow10(-k), OverflowThreshold);
  }

  /** A magnitude small enough to round to zero is never one that overflows. */
  lemma UnderflowExcludesOverflow(m: nat, k: int)
    requires Underflows(m, k)
    ensures !Overflows(m, k)
  {
    var p := Pow10(-k);
    if m >= OverflowThreshold * p {
      OverflowThresholdBounds();
      UnderflowScaleBounds();
      MulAtLeast(p, OverflowThreshold);
      MulAtLeast(m, UnderflowScale);
    }
  }

  /**
   * A numeral whose point moves left by at least 324 places more than it
   * has digits rounds to zero, whatever its sign.
   */
  lemma TinyNumeralRoundsToZero(n: Numeral)
    requires WellFormed(n) && |n.whole + n.frac| + 324 <= -Scale(n)
    ensures ParseFloat(n) == Ok(Zero)
  {
    var d := |n.whole + n.frac|;
    DigitsValueBound(n.whole + n.frac);
    TinyUnderflows(Mantissa(n), d, Scale(n));
    ScaledDownDoesNotOverflow(Mantissa(n), d, Scale(n));
  }

  /** Below 10^a times at most 10^b is at most 10^c once a + b <= c. */
  lemma ProductBelowPow10(m: nat, u: nat, a: nat, b: nat, c: nat)
    requires m < Pow10(a) && u <= Pow10(b) && a + b <= c
    ensures m * u <= Pow10(c)
  {
    var pa, pb := Pow10(a), Pow10(b);
    MulLeft(m, u, pb);
    MulLeft(pb, m, pa);
    Pow10Sum(a, b);
    Pow10Monotone(a + b, c);
  }

  lemma MulLeft(a: nat, b: nat, c: nat)
    requires b <= c
    ensures a * b <= a * c
  {
  }

  /** A non-zero mantissa scaled by at least 10^-280 stays above half the smallest subnormal. */
  lemma ModerateDoesNotUnderflow(m: nat, k: int)
    requires m != 0 && -280 <= k
    ensures !Underflows(m, k)
  {
    if k < 0 {
      UnderflowScaleBounds();
      Pow10Monotone(-k, 320);
      MulAtLeast(UnderflowScale, m);
    }
  }

  /**
   * For a numeral of at most 19 significant digits whose decimal exponent
   * lies within -280..280, rounding keeps the exact sign and never overflows.
   */
  lemma ModerateNumeralKeepsSign(n: Numeral)
    requires WellFormed(n)
    requires Mantissa(n) < Pow10(19)
    requires -280 <= Scale(n) <= 280
    ensures ParseFloat(n) == Ok(ExactSign(n))
  {
    if Mantissa(n) != 0 {
      ModerateDoesNotOverflow(Mantissa(n), Scale(n));
      ModerateDoesNotUnderflow(Mantissa(n), Scale(n));
    }
  }
}
