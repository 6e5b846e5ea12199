/**
 * Finite decimal values as the service stores them.
 *
 * Amounts are held as Python `Decimal`s in memory, but both amount columns
 * are text: the property setter stores `str(amount)` and the getter reads the
 * column back with `Decimal(text)`.  This module models a finite decimal
 * (sign, coefficient, exponent), its scientific-notation rendering as `str`
 * produces it, and the parse of such text; the round trip between the two is
 * what makes a text column a faithful store for amounts.
 */
module Decimals {

  datatype Option<T> = None | Some(value: T)

  /** A finite decimal: (-1)^negative * coefficient * 10^exponent. */
  datatype Dec = Dec(negative: bool, coefficient: nat, exponent: int)

  function Pow10(n: nat): (p: nat)
    ensures p >= 1
  {
    if n == 0 then 1 else 10 * Pow10(n - 1)
  }

  /** The number a decimal stands for. */
  function Value(d: Dec): real
  {
    var magnitude :=
      if d.exponent >= 0 then (d.coefficient * Pow10(d.exponent)) as real
      else d.coefficient as real / Pow10(-d.exponent) as real;
    if d.negative then -magnitude else magnitude
  }

  // ---------------------------------------------------------------------------
  // Digit strings

  predicate IsDigit(c: char) { '0' <= c <= '9' }

  predicate AllDigits(s: string) { forall i :: 0 <= i < |s| ==> IsDigit(s[i]) }

  function DigitChar(n: nat): (c: char)
    requires n < 10
    ensures IsDigit(c)
  {
    ('0' as int + n) as char
  }

  /** The value of a digit character (no other character reaches it in a well-formed scan). */
  function DigitValue(c: char): (n: nat)
    ensures n < 10
  {
    if IsDigit(c) then c as int - '0' as int else 0
  }

  /** Decimal digits of a natural number, most significant first, as `str(int)` gives them. */
  function NatToDigits(n: nat): (s: string)
    ensures |s| >= 1 && AllDigits(s)
  {
    if n < 10 then [DigitChar(n)] else NatToDigits(n / 10) + [DigitChar(n % 10)]
  }

  /** The number a string of decimal digits denotes, as `int(text)` reads it. */
  function DigitsToNat(s: string): nat
  {
    if s == [] then 0 else DigitsToNat(s[..|s| - 1]) * 10 + DigitValue(s[|s| - 1])
  }

  function Zeros(k: nat): (s: string)
    ensures |s| == k && AllDigits(s)
    ensures forall i :: 0 <= i < k ==> s[i] == '0'
  {
    if k == 0 then [] else Zeros(k - 1) + ['0']
  }

  lemma {:induction false} DigitsRoundTrip(n: nat)
    ensures DigitsToNat(NatToDigits(n)) == n
  {
    var s := NatToDigits(n);
    if n >= 10 {
      DigitsRoundTrip(n / 10);
      assert s[..|s| - 1] == NatToDigits(n / 10);
    }
  }

  predicate AllZeros(z: string) { forall i :: 0 <= i < |z| ==> z[i] == '0' }

  lemma {:induction false} ZerosDenoteZero(z: string)
    requires AllZeros(z)
    ensures AllDigits(z) && DigitsToNat(z) == 0
  {
    if z != [] {
      ZerosDenoteZero(z[..|z| - 1]);
    }
  }

  /** Leading zeros do not change the number a digit string denotes. */
  lemma {:induction false} LeadingZerosIgnored(z: string, s: string)
    requires AllZeros(z) && AllDigits(s)
    ensures AllDigits(z + s) && DigitsToNat(z + s) == DigitsToNat(s)
  {
    if s == [] {
      assert z + s == z;
      ZerosDenoteZero(z);
    } else {
      var t := z + s;
      assert t[..|t| - 1] == z + s[..|s| - 1];
      LeadingZerosIgnored(z, s[..|s| - 1]);
    }
  }

  // ---------------------------------------------------------------------------
  // Rendering: str(Decimal)

  /** `"%+d" % n`: an explicit sign, then the digits of |n|. */
  function SignedToString(n: int): string
  {
    (if n < 0 then "-" else "+") + NatToDigits(if n < 0 then -n else n)
  }

  /**
   * The digits of the coefficient with a point placed `dotplace` digits from
   * their left: `0.` and leading zeros when the point is left of all of them,
   * trailing zeros and no point when it is at or right of their end.
   */
  function PointedDigits(digits: string, dotplace: int): string
  {
    if dotplace <= 0 then "0." + Zeros(-dotplace) + digits
    else if dotplace >= |digits| then digits + Zeros(dotplace - |digits|)
    else digits[..dotplace] + "." + digits[dotplace..]
  }

  /** The exponent part: empty when the point sits where the value puts it, else `E` and the shift. */
  function ExponentSuffix(leftdigits: int, dotplace: int): string
  {
    if leftdigits == dotplace then "" else "E" + SignedToString(leftdigits - dotplace)
  }

  /**
   * `str(d)`: plain notation when the exponent is not positive and the
   * number has more than -6 digits left of the point, scientific notation
   * with one digit before the point (and an `E` exponent) otherwise.
   */
  function ToString(d: Dec): string
  {
    var digits := NatToDigits(d.coefficient);
    var leftdigits := d.exponent + |digits|;
    var dotplace := if d.exponent <= 0 && leftdigits > -6 then leftdigits else 1;
    (if d.negative then "-" else "") + PointedDigits(digits, dotplace) + ExponentSuffix(leftdigits, dotplace)
  }

  // ---------------------------------------------------------------------------
  // Parsing: Decimal(text)

  /**
   * Where a left-to-right scan of `[sign] int [. frac] [E [sign] digits]`
   * stands: at least one mantissa digit, the point optional, the exponent
   * marker in either case.
   */
  datatype Phase =
    | Start | AfterSign | Whole | BarePoint | Fraction
    | Mark | ExponentSign | ExponentDigits | Rejected

  /**
   * The scan so far: its phase, the sign, the mantissa digits read (the
   * integer part and the fraction part together, as the parser joins them),
   * how many of those were after the point, and the exponent read.
   */
  datatype Scan = Scan(phase: Phase, negative: bool, mantissa: string, fraction: nat,
                       exponentNegative: bool, exponent: string)

  const Initial := Scan(Start, false, [], 0, false, [])

  predicate InMantissa(p: Phase) { p == Start || p == AfterSign || p == Whole || p == BarePoint || p == Fraction }

  predicate InExponent(p: Phase) { p == Mark || p == ExponentSign || p == ExponentDigits }

  /** The phase after one more character; anything the grammar does not allow rejects the text. */
  function NextPhase(p: Phase, c: char): Phase
  {
    match p
    case Start =>
      if c == '-' || c == '+' then AfterSign else if IsDigit(c) then Whole else if c == '.' then BarePoint else Rejected
    case AfterSign =>
      if IsDigit(c) then Whole else if c == '.' then BarePoint else Rejected
    case Whole =>
      if IsDigit(c) then Whole else if c == '.' then Fraction else if c == 'E' || c == 'e' then Mark else Rejected
    case BarePoint =>
      if IsDigit(c) then Fraction else Rejected
    case Fraction =>
      if IsDigit(c) then Fraction else if c == 'E' || c == 'e' then Mark else Rejected
    case Mark =>
      if c == '-' || c == '+' then ExponentSign else if IsDigit(c) then ExponentDigits else Rejected
    case ExponentSign =>
      if IsDigit(c) then ExponentDigits else Rejected
    case ExponentDigits =>
      if IsDigit(c) then ExponentDigits else Rejected
    case Rejected => Rejected
  }

  /**
   * One character of the scan: a digit joins the mantissa (counted as a
   * fraction digit after the point) or the exponent, a leading `-` makes the
   * number or its exponent negative.
   */
  function Step(st: Scan, c: char): Scan
  {
    Scan(NextPhase(st.phase, c),
         st.negative || (st.phase == Start && c == '-'),
         if IsDigit(c) && InMantissa(st.phase) then st.mantissa + [c] else st.mantissa,
         if IsDigit(c) && (st.phase == BarePoint || st.phase == Fraction) then st.fraction + 1 else st.fraction,
         st.exponentNegative || (st.phase == Mark && c == '-'),
         if IsDigit(c) && InExponent(st.phase) then st.exponent + [c] else st.exponent)
  }

  function Run(st: Scan, s: string): Scan
    decreases |s|
  {
    if s == [] then st else Run(Step(st, s[0]), s[1..])
  }

  /** The scan is accepted where a mantissa digit or an exponent digit was read last. */
  function Finish(st: Scan): Option<Dec>
  {
    if st.phase == Whole || st.phase == Fraction || st.phase == ExponentDigits then
      var e: int := DigitsToNat(st.exponent);
      Some(Dec(st.negative, DigitsToNat(st.mantissa), (if st.exponentNegative then -e else e) - st.fraction))
    else None
  }

  /** `Decimal(text)` for finite numbers; None where the constructor raises. */
  function ParseDecimal(s: string): Option<Dec>
  {
    Finish(Run(Initial, s))
  }

  // ---------------------------------------------------------------------------
  // The round trip

  lemma {:induction false} RunAppend(st: Scan, a: string, b: string)
    ensures Run(st, a + b) == Run(Run(st, a), b)
    decreases |a|
  {
    if a == [] {
      assert a + b == b;
    } else {
      assert (a + b)[0] == a[0] && (a + b)[1..] == a[1..] + b;
      RunAppend(Step(st, a[0]), a[1..], b);
    }
  }

  /**
   * Reading mantissa digits appends them to the mantissa; after the point
   * each of them counts as a fraction digit.
   */
  lemma {:induction false} MantissaDigits(st: Scan, d: string)
    requires AllDigits(d) && InMantissa(st.phase)
    requires |d| > 0 || st.phase == Whole || st.phase == Fraction
    ensures var afterPoint := st.phase == BarePoint || st.phase == Fraction;
      Run(st, d) == st.(phase := if afterPoint then Fraction else Whole,
                        mantissa := st.mantissa + d,
                        fraction := st.fraction + if afterPoint then |d| else 0)
    decreases |d|
  {
    if d == [] {
      assert st.mantissa + d == st.mantissa;
    } else {
      var next := Step(st, d[0]);
      assert next.mantissa + d[1..] == st.mantissa + d;
      MantissaDigits(next, d[1..]);
    }
  }

  /** Reading exponent digits appends them to the exponent. */
  lemma {:induction false} ExponentDigitsRun(st: Scan, d: string)
    requires AllDigits(d) && (st.phase == ExponentSign || st.phase == ExponentDigits)
    requires |d| > 0 || st.phase == ExponentDigits
    ensures Run(st, d) == st.(phase := ExponentDigits, exponent := st.exponent + d)
    decreases |d|
  {
    if d == [] {
      assert st.exponent + d == st.exponent;
    } else {
      var next := Step(st, d[0]);
      assert next.exponent + d[1..] == st.exponent + d;
      ExponentDigitsRun(next, d[1..]);
    }
  }

  /** A scan about to read a mantissa, with nothing read yet. */
  predicate Fresh(st: Scan)
  {
    (st.phase == Start || st.phase == AfterSign) && st.mantissa == [] && st.fraction == 0
  }

  lemma {:induction false} ZeroPoint(st: Scan)
    requires Fresh(st)
    ensures Run(st, "0.") == st.(phase := Fraction, mantissa := "0")
  {
    assert "0."[0] == '0' && "0."[1..] == ".";
    assert "."[0] == '.' && "."[1..] == [];
  }

  lemma {:induction false} LeadingZero(z: string, digits: string)
    requires AllZeros(z) && AllDigits(digits)
    ensures AllDigits("0" + z + digits) && DigitsToNat("0" + z + digits) == DigitsToNat(digits)
  {
    LeadingZerosIgnored("0" + z, digits);
  }

  /** What reading a mantissa leaves in the scan: the digits it stands for and the fraction length. */
  predicate ReadMantissa(st: Scan, read: Scan, phase: Phase, coefficient: nat, fraction: nat)
  {
    && read.phase == phase
    && read.negative == st.negative
    && read.exponentNegative == st.exponentNegative && read.exponent == st.exponent
    && DigitsToNat(read.mantissa) == coefficient
    && read.fraction == fraction
  }

  /** `0.000ddd`: the leading zero and the zeros after the point do not count, every digit after the point is fraction. */
  lemma {:induction false} SmallRoundTrip(st: Scan, m: string, digits: string, k: nat)
    requires Fresh(st) && AllDigits(digits)
    requires m == "0." + Zeros(k) + digits
    ensures ReadMantissa(st, Run(st, m), Fraction, DigitsToNat(digits), k + |digits|)
  {
    var z := Zeros(k);
    var point := st.(phase := Fraction, mantissa := "0");
    var afterZeros := st.(phase := Fraction, mantissa := "0" + z, fraction := k);
    var final := afterZeros.(mantissa := "0" + z + digits, fraction := k + |digits|);
    ZeroPoint(st);
    MantissaDigits(point, z);
    RunAppend(st, "0.", z);
    assert Run(st, "0." + z) == afterZeros;
    MantissaDigits(afterZeros, digits);
    RunAppend(st, "0." + z, digits);
    assert Run(st, "0." + z + digits) == final;
    LeadingZero(z, digits);
  }

  /** `ddd`: all digits before the point, none after. */
  lemma {:induction false} WholeRoundTrip(st: Scan, m: string, digits: string)
    requires Fresh(st) && AllDigits(digits) && |digits| > 0
    requires m == digits
    ensures ReadMantissa(st, Run(st, m), Whole, DigitsToNat(digits), 0)
  {
    MantissaDigits(st, digits);
    assert st.mantissa + digits == digits;
  }

  /** `dd.ddd`: the digits on both sides of the point, those after it as fraction. */
  lemma {:induction false} SplitRoundTrip(st: Scan, m: string, a: string, b: string, n: nat)
    requires Fresh(st) && AllDigits(a) && AllDigits(b) && |a| > 0
    requires m == a + "." + b && n == DigitsToNat(a + b)
    ensures ReadMantissa(st, Run(st, m), Fraction, n, |b|)
  {
    var whole := st.(phase := Whole, mantissa := a);
    var point := whole.(phase := Fraction);
    var final := point.(mantissa := a + b, fraction := |b|);
    MantissaDigits(st, a);
    assert st.mantissa + a == a;
    assert Run(st, a) == whole;
    assert Run(whole, ".") == point by {
      assert "."[0] == '.' && "."[1..] == [];
    }
    RunAppend(st, a, ".");
    MantissaDigits(point, b);
    assert Run(point, b) == final;
    RunAppend(st, a + ".", b);
  }

  /** The pointed digits of `str` read back as the digits, with those right of the point as fraction. */
  lemma {:induction false} PointedDigitsRoundTrip(st: Scan, digits: string, dotplace: int)
    requires Fresh(st)
    requires AllDigits(digits) && |digits| > 0 && (dotplace >= |digits| ==> dotplace == |digits|)
    ensures ReadMantissa(st, Run(st, PointedDigits(digits, dotplace)),
                         if dotplace >= |digits| then Whole else Fraction, DigitsToNat(digits), |digits| - dotplace)
  {
    var m := PointedDigits(digits, dotplace);
    if dotplace <= 0 {
      SmallRoundTrip(st, m, digits, -dotplace);
    } else if dotplace >= |digits| {
      assert m == digits + Zeros(0) == digits;
      WholeRoundTrip(st, m, digits);
    } else {
      var p: nat := dotplace;
      assert DigitsToNat(digits[..p] + digits[p..]) == DigitsToNat(digits) by {
        assert digits[..p] + digits[p..] == digits;
      }
      SplitRoundTrip(st, m, digits[..p], digits[p..], DigitsToNat(digits));
    }
  }

  /** The exponent suffix of `str` reads back as the shift it stands for. */
  lemma {:induction false} ExponentRoundTrip(st: Scan, n: int)
    requires st.phase == Whole || st.phase == Fraction
    requires !st.exponentNegative && st.exponent == []
    ensures var read := Run(st, "E" + SignedToString(n));
      && read == st.(phase := ExponentDigits, exponentNegative := n < 0, exponent := read.exponent)
      && DigitsToNat(read.exponent) == if n < 0 then -n else n
  {
    var m := if n < 0 then -n else n;
    var sign := if n < 0 then "-" else "+";
    var digits := NatToDigits(m);
    var marked := ['E'] + sign;
    assert "E" + SignedToString(n) == marked + digits;
    assert marked[0] == 'E' && marked[1..] == sign && sign[0] == (if n < 0 then '-' else '+') && sign[1..] == [];
    var signed := st.(phase := ExponentSign, exponentNegative := n < 0);
    assert Run(st, marked) == Run(st.(phase := Mark), sign);
    assert Run(st.(phase := Mark), sign) == Run(signed, []);
    RunAppend(st, marked, digits);
    ExponentDigitsRun(signed, digits);
    assert st.exponent + digits == digits;
    DigitsRoundTrip(m);
  }

  /** A mantissa without exponent: the value is the coefficient shifted right by the fraction digits. */
  lemma {:induction false} FinishPlain(st: Scan, read: Scan, phase: Phase, coefficient: nat, fraction: nat)
    requires ReadMantissa(st, read, phase, coefficient, fraction)
    requires (phase == Whole || phase == Fraction) && !st.exponentNegative && st.exponent == []
    ensures Finish(read) == Some(Dec(st.negative, coefficient, 0 - fraction))
  {
  }

  /** A mantissa with an exponent: the value is the coefficient shifted by the exponent less the fraction digits. */
  lemma {:induction false} FinishScientific(st: Scan, read: Scan, final: Scan, n: int, coefficient: nat, fraction: nat)
    requires read.negative == st.negative && DigitsToNat(read.mantissa) == coefficient && read.fraction == fraction
    requires final == read.(phase := ExponentDigits, exponentNegative := n < 0, exponent := final.exponent)
    requires DigitsToNat(final.exponent) == if n < 0 then -n else n
    ensures Finish(final) == Some(Dec(st.negative, coefficient, n - fraction))
  {
  }

  /** After a mantissa, the exponent suffix (if any) shifts the value by `n`. */
  lemma {:induction false} SuffixRoundTrip(st: Scan, m: string, suffix: string, n: int, phase: Phase, coefficient: nat, fraction: nat)
    requires !st.exponentNegative && st.exponent == []
    requires ReadMantissa(st, Run(st, m), phase, coefficient, fraction) && (phase == Whole || phase == Fraction)
    requires suffix == if n == 0 then "" else "E" + SignedToString(n)
    ensures Finish(Run(st, m + suffix)) == Some(Dec(st.negative, coefficient, n - fraction))
  {
    var read := Run(st, m);
    RunAppend(st, m, suffix);
    var final := Run(read, suffix);
    if n == 0 {
      assert final == read;
      FinishPlain(st, read, phase, coefficient, fraction);
    } else {
      ExponentRoundTrip(read, n);
      FinishScientific(st, read, final, n, coefficient, fraction);
    }
  }

  /** The unsigned part of `str(d)` reads back as the coefficient and exponent. */
  lemma {:induction false} UnsignedRoundTrip(st: Scan, digits: string, leftdigits: int, dotplace: int)
    requires Fresh(st) && !st.exponentNegative && st.exponent == []
    requires AllDigits(digits) && |digits| > 0 && (dotplace >= |digits| ==> dotplace == |digits|)
    ensures Finish(Run(st, PointedDigits(digits, dotplace) + ExponentSuffix(leftdigits, dotplace)))
         == Some(Dec(st.negative, DigitsToNat(digits), leftdigits - |digits|))
  {
    var f: nat := |digits| - dotplace;
    PointedDigitsRoundTrip(st, digits, dotplace);
    SuffixRoundTrip(st, PointedDigits(digits, dotplace), ExponentSuffix(leftdigits, dotplace), leftdigits - dotplace,
                    if dotplace >= |digits| then Whole else Fraction, DigitsToNat(digits), f);
  }

  /** `str(d)` is the sign, then the pointed digits, then the exponent suffix. */
  lemma {:induction false} ToStringParts(d: Dec, digits: string, leftdigits: int, dotplace: int)
    requires digits == NatToDigits(d.coefficient) && leftdigits == d.exponent + |digits|
    requires dotplace == if d.exponent <= 0 && leftdigits > -6 then leftdigits else 1
    ensures ToString(d) == (if d.negative then "-" else "") + (PointedDigits(digits, dotplace) + ExponentSuffix(leftdigits, dotplace))
  {
  }

  /** Reading the sign: `-` marks the decimal negative, no sign leaves it positive. */
  lemma {:induction false} SignRoundTrip(negative: bool, body: string)
    ensures Run(Initial, (if negative then "-" else "") + body)
         == Run(if negative then Initial.(phase := AfterSign, negative := true) else Initial, body)
  {
    var sign := if negative then "-" else "";
    RunAppend(Initial, sign, body);
    if negative {
      assert "-"[0] == '-' && "-"[1..] == [];
    }
  }

  /** Reading back what `str` wrote gives the same decimal: sign, coefficient and exponent. */
  lemma {:induction false} ParseToString(d: Dec)
    ensures ParseDecimal(ToString(d)) == Some(d)
  {
    var digits := NatToDigits(d.coefficient);
    DigitsRoundTrip(d.coefficient);
    var leftdigits := d.exponent + |digits|;
    var dotplace := if d.exponent <= 0 && leftdigits > -6 then leftdigits else 1;
    var body := PointedDigits(digits, dotplace) + ExponentSuffix(leftdigits, dotplace);
    ToStringParts(d, digits, leftdigits, dotplace);
    SignRoundTrip(d.negative, body);
    var signed := if d.negative then Initial.(phase := AfterSign, negative := true) else Initial;
    UnsignedRoundTrip(signed, digits, leftdigits, dotplace);
    assert Run(Initial, ToString(d)) == Run(signed, body);
    assert signed.negative == d.negative;
    assert Finish(Run(signed, body)) == Some(Dec(signed.negative, DigitsToNat(digits), leftdigits - |digits|));
    assert DigitsToNat(digits) == d.coefficient && leftdigits - |digits| == d.exponent;
    assert Dec(signed.negative, DigitsToNat(digits), leftdigits - |digits|) == d;
    assert ParseDecimal(ToString(d)) == Finish(Run(signed, body));
  }

  /** Every text `str` writes reads back as the decimal it was written from. */
  lemma StrReadsBack()
    ensures forall d :: ParseDecimal(ToString(d)) == Some(d)
  {
    forall d: Dec
      ensures ParseDecimal(ToString(d)) == Some(d)
    {
      ParseToString(d);
    }
  }
}
