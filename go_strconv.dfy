/**
 * The parts of Go's `strconv` package the accessors rely on: `Atoi`,
 * `ParseBool` and `FormatInt` (base 10), on a platform whose `int` has 64 bits.
 */
module GoStrconv {
  import opened Wrappers

  /** The two failures `strconv` reports in a `*NumError`. */
  datatype NumError = ErrSyntax | ErrRange

  const MinInt64: int := -0x8000_0000_0000_0000
  const MaxInt64: int := 0x7FFF_FFFF_FFFF_FFFF

  /** An ASCII decimal digit (Go's `\d` and `strconv` accept no other digits). */
  predicate IsDigit(c: char) {
    '0' <= c <= '9'
  }

  predicate AllDigits(s: string) {
    forall i :: 0 <= i < |s| ==> IsDigit(s[i])
  }

  function DigitValue(c: char): (d: nat)
    requires IsDigit(c)
    ensures d < 10
  {
    (c as int) - ('0' as int)
  }

  function DigitChar(d: nat): (c: char)
    requires d < 10
    ensures IsDigit(c) && DigitValue(c) == d
  {
    (('0' as int) + d) as char
  }

  /** The number a string of decimal digits denotes, most significant digit first. */
  function DigitsValue(s: string): nat
    requires AllDigits(s)
  {
    if s == [] then 0 else DigitsValue(s[..|s| - 1]) * 10 + DigitValue(s[|s| - 1])
  }

  /** The shortest decimal numeral of `n`: it reads back as `n` and has no leading zero. */
  function DecimalDigits(n: nat): (s: string)
    ensures |s| >= 1 && AllDigits(s)
    ensures DigitsValue(s) == n
    ensures |s| > 1 ==> s[0] != '0'
  {
    if n < 10 then
      [DigitChar(n)]
    else
      var s := DecimalDigits(n / 10) + [DigitChar(n % 10)];
      assert s[..|s| - 1] == DecimalDigits(n / 10);
      s
  }

  /** `strconv.FormatInt(v, 10)`. */
  function FormatInt(v: int): string {
    if v < 0 then "-" + DecimalDigits(-v) else DecimalDigits(v)
  }

  /** The length of the run of digits `s` starts with. */
  function DigitRun(s: string): (k: nat)
    ensures k <= |s| && AllDigits(s[..k])
    ensures k == |s| || !IsDigit(s[k])
  {
    if s != [] && IsDigit(s[0]) then
      var k := 1 + DigitRun(s[1..]);
      assert s[..k] == [s[0]] + s[1..][..k - 1];
      k
    else
      0
  }

  lemma {:induction false} DigitRunAll(d: string, t: string)
    requires AllDigits(d)
    requires t == [] || !IsDigit(t[0])
    ensures DigitRun(d + t) == |d|
    decreases |d|
  {
    if d == [] {
      assert d + t == t;
    } else {
      assert (d + t)[1..] == d[1..] + t;
      DigitRunAll(d[1..], t);
    }
  }


  /** A numeral's digits: the text after an optional leading sign. */
  function Unsigned(s: string): (u: string)
    ensures |u| <= |s|
  {
    if |s| > 0 && (s[0] == '+' || s[0] == '-') then s[1..] else s
  }

  /** The syntax `Atoi` accepts: an optional sign, then one or more ASCII digits. */
  predicate IsIntegerSyntax(s: string) {
    Unsigned(s) != [] && AllDigits(Unsigned(s))
  }

  /** The value of a numeral of that syntax. */
  function IntegerValue(s: string): int
    requires IsIntegerSyntax(s)
  {
    if s[0] == '-' then -(DigitsValue(Unsigned(s)) as int) else DigitsValue(Unsigned(s))
  }

  const MaxUint64: int := 0xFFFF_FFFF_FFFF_FFFF

  /** `ParseUint`'s cutoff in base 10: the least `n` whose tenfold passes 64 bits. */
  const Uint64Cutoff: int := MaxUint64 / 10 + 1

  /** The run of digits `u` starts with denotes a number beyond 64 unsigned bits. */
  predicate LeadingDigitsOverflow(u: string) {
    DigitsValue(u[..DigitRun(u)]) > MaxUint64
  }

  /**
   * The digit loop of `strconv.ParseUint` in base 10, from position `i` with
   * the value `n` read so far, left to right: a syntax error at a non-digit,
   * a range error as soon as the value would pass 64 bits.
   */
  function ParseUintFrom(u: string, i: nat, n: nat): Result<nat, NumError>
    requires i <= |u|
    decreases |u| - i
  {
    if i == |u| then Ok(n)
    else if !IsDigit(u[i]) then Err(ErrSyntax)
    else if n >= Uint64Cutoff then Err(ErrRange)
    else
      var n1 := n * 10 + DigitValue(u[i]);
      if n1 > MaxUint64 then Err(ErrRange) else ParseUintFrom(u, i + 1, n1)
  }

  /**
   * `strconv.ParseUint(u, 10, 64)`: digits only, within 64 unsigned bits; a
   * range error whenever the leading digits already overflow, even when a
   * non-digit follows them.
   */
  function ParseUint(u: string): (r: Result<nat, NumError>)
    ensures r.Ok? <==> u != [] && AllDigits(u) && DigitsValue(u) <= MaxUint64
    ensures r.Ok? ==> r.value == DigitsValue(u)
    ensures r == Err(ErrSyntax) <==> !(u != [] && AllDigits(u)) && !LeadingDigitsOverflow(u)
  {
    if u == [] then
      Err(ErrSyntax)
    else
      ParseUintFromDigits(u, 0);
      var k := DigitRun(u);
      assert k == |u| ==> u[..k] == u;
      assert k < |u| ==> !IsDigit(u[k]);
      ParseUintFrom(u, 0, 0)
  }

  /** `ParseUintFrom` as a function of the leading run of digits. */
  lemma {:induction false} ParseUintFromDigits(u: string, i: nat)
    requires i <= DigitRun(u)
    requires AllDigits(u[..i]) && DigitsValue(u[..i]) <= MaxUint64
    ensures var k := DigitRun(u);
      ParseUintFrom(u, i, DigitsValue(u[..i])) ==
        if DigitsValue(u[..k]) > MaxUint64 then Err(ErrRange)
        else if k < |u| then Err(ErrSyntax)
        else Ok(DigitsValue(u[..k]))
    decreases |u| - i
  {
    var k := DigitRun(u);
    var n := DigitsValue(u[..i]);
    if i == |u| {
    } else if !IsDigit(u[i]) {
      assert k == i;
    } else {
      assert i < k;
      var n1 := n * 10 + DigitValue(u[i]);
      assert u[..i + 1][..i] == u[..i];
      assert AllDigits(u[..i + 1]) by {
        assert forall m :: 0 <= m < i + 1 ==> u[..i + 1][m] == u[..k][m];
      }
      assert DigitsValue(u[..i + 1]) == n1;
      if n >= Uint64Cutoff || n1 > MaxUint64 {
        assert u[..k][..i + 1] == u[..i + 1];
        DigitsValuePrefix(u[..k], i + 1);
      } else {
        ParseUintFromDigits(u, i + 1);
      }
    }
  }

  /** A prefix of a numeral denotes at most what the whole numeral does. */
  lemma {:induction false} DigitsValuePrefix(t: string, j: nat)
    requires AllDigits(t) && j <= |t|
    ensures AllDigits(t[..j]) && DigitsValue(t[..j]) <= DigitsValue(t)
    decreases |t|
  {
    if j == |t| {
      assert t[..j] == t;
    } else {
      var init := t[..|t| - 1];
      assert init[..j] == t[..j];
      DigitsValuePrefix(init, j);
    }
  }

  /**
   * `strconv.ParseInt(s, 10, 64)`: the sign, then `ParseUint` on the digits,
   * then the signed 64-bit range; `ParseUint`'s errors pass through.
   */
  function ParseInt(s: string): (r: Result<int, NumError>)
    ensures r.Ok? <==> IsIntegerSyntax(s) && MinInt64 <= IntegerValue(s) <= MaxInt64
    ensures r.Ok? ==> r.value == IntegerValue(s)
    ensures r == Err(ErrSyntax) <==> !IsIntegerSyntax(s) && !LeadingDigitsOverflow(Unsigned(s))
  {
    if s == [] then
      Err(ErrSyntax)
    else
      var negative := s[0] == '-';
      match ParseUint(Unsigned(s))
      case Err(e) => Err(e)
      case Ok(magnitude) =>
        if !negative && magnitude > MaxInt64 then Err(ErrRange)
        else if negative && magnitude > -MinInt64 then Err(ErrRange)
        else Ok(if negative then -(magnitude as int) else magnitude)
  }

  /** Eighteen digits or fewer stay below 10^18, inside the 64-bit range. */
  lemma ShortDigitsFit(t: string)
    requires AllDigits(t) && |t| <= 18
    ensures DigitsValue(t) < 1_000_000_000_000_000_000
  {
    DigitsValueBound(t);
    Pow10Monotone(|t|, 18);
    assert Pow10(9) == 1_000_000_000;
    Pow10Sum(9, 9);
  }

  /**
   * `Atoi`'s fast path for fewer than 19 bytes: an optional sign, then digits
   * only; a syntax error otherwise. No range check is needed at that length.
   */
  function AtoiFast(s: string): (r: Result<int, NumError>)
    requires 0 < |s| < 19
    ensures r.Ok? <==> IsIntegerSyntax(s) && MinInt64 <= IntegerValue(s) <= MaxInt64
    ensures r.Ok? ==> r.value == IntegerValue(s)
    ensures r == Err(ErrSyntax) <==> !IsIntegerSyntax(s) && !LeadingDigitsOverflow(Unsigned(s))
  {
    var digits := Unsigned(s);
    if digits == [] || !AllDigits(digits) then
      ShortDigitsFit(digits[..DigitRun(digits)]);
      Err(ErrSyntax)
    else
      ShortDigitsFit(digits);
      Ok(if s[0] == '-' then -(DigitsValue(digits) as int) else DigitsValue(digits))
  }

  /**
   * `strconv.Atoi` on a 64-bit platform: the fast path below 19 bytes, else
   * `ParseInt`. It succeeds exactly on an optional sign followed by ASCII
   * digits whose value fits 64 bits; it reports a syntax error exactly when
   * that syntax is broken before the leading digits overflow.
   */
  function Atoi(s: string): (r: Result<int, NumError>)
    ensures r.Ok? <==> IsIntegerSyntax(s) && MinInt64 <= IntegerValue(s) <= MaxInt64
    ensures r.Ok? ==> r.value == IntegerValue(s)
    ensures r == Err(ErrSyntax) <==> !IsIntegerSyntax(s) && !LeadingDigitsOverflow(Unsigned(s))
  {
    if 0 < |s| < 19 then AtoiFast(s) else ParseInt(s)
  }

  /** `Atoi` reads back every 64-bit integer `FormatInt` writes. */
  lemma AtoiFormatInt(v: int)
    requires MinInt64 <= v <= MaxInt64
    ensures Atoi(FormatInt(v)) == Ok(v)
  {
    var s := FormatInt(v);
    var digits := DecimalDigits(if v < 0 then -v else v);
    if v < 0 {
      assert s[0] == '-' && s[1..] == digits;
    } else {
      assert s == digits && s[0] != '-' && s[0] != '+';
    }
    assert Unsigned(s) == digits;
    assert IsIntegerSyntax(s) && IntegerValue(s) == v;
  }

  /** A numeral's value is at least its leading digit times the power of ten of its position. */
  lemma {:induction false} DigitsValueLeading(s: string)
    requires AllDigits(s) && |s| >= 1
    ensures DigitsValue(s) >= DigitValue(s[0]) * Pow10(|s| - 1)
    decreases |s|
  {
    if |s| > 1 {
      var init := s[..|s| - 1];
      assert init[0] == s[0];
      DigitsValueLeading(init);
      var a, p := DigitValue(s[0]), Pow10(|init| - 1);
      assert Pow10(|s| - 1) == 10 * p;
      assert DigitsValue(s) >= DigitsValue(init) * 10;
      assert DigitsValue(init) * 10 >= (a * p) * 10;
      assert (a * p) * 10 == a * (10 * p);
    }
  }

  /** A string of k digits denotes a number below 10^k. */
  lemma {:induction false} DigitsValueBound(s: string)
    requires AllDigits(s)
    ensures DigitsValue(s) < Pow10(|s|)
    decreases |s|
  {
    if s != [] {
      DigitsValueBound(s[..|s| - 1]);
    }
  }

  function Pow10(n: nat): (p: nat)
    ensures p >= 1
  {
    if n == 0 then 1 else 10 * Pow10(n - 1)
  }

  lemma Pow10Monotone(a: nat, b: nat)
    requires a <= b
    ensures Pow10(a) <= Pow10(b)
  {
    Pow10Sum(a, b - a);
  }

  lemma {:induction false} Pow10Sum(a: nat, b: nat)
    ensures Pow10(a + b) == Pow10(a) * Pow10(b)
    decreases a
  {
    if a > 0 {
      Pow10Sum(a - 1, b);
      assert Pow10(a + b) == 10 * Pow10(a - 1 + b);
    }
  }

  lemma AtoiAcceptsExamples()
    ensures Atoi("123") == Ok(123)
    ensures Atoi("-45") == Ok(-45)
  {
    assert "123"[..2] == "12" && "12"[..1] == "1" && "1"[..0] == "";
    assert DigitsValue("1") == 1 && DigitsValue("12") == 12 && DigitsValue("123") == 123;
    assert "-45"[1..] == "45" && "45"[..1] == "4" && "4"[..0] == "";
    assert DigitsValue("4") == 4 && DigitsValue("45") == 45;
  }

  lemma AtoiRejectsExamples()
    ensures Atoi("abc") == Err(ErrSyntax)
    ensures Atoi("12.5") == Err(ErrSyntax)
    ensures Atoi(" 7") == Err(ErrSyntax)
    ensures Atoi("+") == Err(ErrSyntax)
  {
    assert !IsDigit("12.5"[2]);
    assert !IsDigit(" 7"[0]);
  }

  /** Twenty nines are beyond 64 unsigned bits. */
  lemma TwentyNines(d: string)
    requires d == "99999999999999999999"
    ensures AllDigits(d) && d != [] && DigitsValue(d) > MaxUint64
  {
    assert AllDigits(d) && d[0] == '9' && |d| == 20;
    assert Pow10(19) == 10000000000000000000 by {
      assert Pow10(10) == 10000000000 && Pow10(9) == 1000000000;
      Pow10Sum(10, 9);
    }
    DigitsValueLeading(d);
  }

  /**
   * Digits beyond 64 unsigned bits, followed by nothing or by a non-digit,
   * are a range error: `ParseUint` overflows before it reaches the rest.
   */
  lemma OverflowIsRangeError(d: string, t: string)
    requires AllDigits(d) && d != [] && DigitsValue(d) > MaxUint64
    requires t == [] || !IsDigit(t[0])
    ensures Atoi(d + t) == Err(ErrRange)
  {
    var s := d + t;
    assert s[0] == d[0] && Unsigned(s) == s;
    DigitRunAll(d, t);
    assert s[..|d|] == d;
    assert LeadingDigitsOverflow(Unsigned(s));
    if t == [] {
      assert s == d && IntegerValue(s) == DigitsValue(d);
      assert !Atoi(s).Ok?;
    } else {
      assert s[|d|] == t[0];
      assert !IsIntegerSyntax(s);
    }
    assert Atoi(s).error != ErrSyntax;
  }

  /** Twenty nines are a range error. */
  lemma AtoiRangeExample()
    ensures Atoi("99999999999999999999") == Err(ErrRange)
  {
    var d := "99999999999999999999";
    TwentyNines(d);
    OverflowIsRangeError(d, []);
    assert d + [] == d;
  }

  /**
   * Twenty nines followed by a letter are a range error too, not a syntax
   * error: the overflow is met before the letter.
   */
  lemma AtoiRangeBeforeSyntaxExample()
    ensures Atoi("99999999999999999999x") == Err(ErrRange)
  {
    var d := "99999999999999999999";
    TwentyNines(d);
    OverflowIsRangeError(d, "x");
    assert d + "x" == "99999999999999999999x";
  }

  /**
   * `strconv.ParseBool`: exactly twelve spellings are accepted, at most five
   * characters long, and the first character decides the answer; everything
   * else is a syntax error.
   */
  function ParseBool(s: string): (r: Result<bool, NumError>)
    ensures r.Err? ==> r.error == ErrSyntax
    ensures r.Ok? ==> 1 <= |s| <= 5
    ensures r.Ok? ==> (r.value <==> s[0] in "1tT") && (!r.value <==> s[0] in "0fF")
  {
    if s in {"1", "t", "T", "TRUE", "true", "True"} then Ok(true)
    else if s in {"0", "f", "F", "FALSE", "false", "False"} then Ok(false)
    else Err(ErrSyntax)
  }
}
