/**
 * Python's `float(text)` and `int(x)` over exact reals.  `float` accepts
 * optional surrounding white space, an optional sign, decimal digits with an
 * optional point, and an optional exponent; any other text raises
 * ValueError, modelled as None.  The text is read in one left-to-right pass.
 */
module Numbers {
  import opened Wrappers
  import opened Text

  function DigitValue(c: char): (d: nat)
    requires IsDigit(c)
    ensures d < 10
  {
    (c as int) - ('0' as int)
  }

  /** The value of a string of decimal digits (0 for the empty string). */
  function DigitsValue(ds: string): nat
    requires IsDigits(ds)
  {
    if ds == [] then 0 else DigitsValue(ds[..|ds| - 1]) * 10 + DigitValue(ds[|ds| - 1])
  }

  /** `v * 10^e`, one decimal place at a time. */
  function Scale10(v: real, e: int): (r: real)
    ensures v >= 0.0 ==> r >= 0.0
    decreases if e >= 0 then e else -e
  {
    if e == 0 then v
    else if e > 0 then Scale10(v * 10.0, e - 1)
    else Scale10(v / 10.0, e + 1)
  }

  /** `Scale10(v, e)` is `v` times the `e`-th power of ten for `e >= 0`. */
  lemma {:induction false} Scale10Up(v: real, e: nat)
    ensures Scale10(v, e) == v * Pow10(e) as real
    decreases e
  {
    if e > 0 {
      assert Scale10(v, e) == Scale10(v * 10.0, e - 1);
      Scale10Up(v * 10.0, e - 1);
      ShiftUp(v, e);
    }
  }

  /** `Scale10(v, -e)` is `v` divided by the `e`-th power of ten. */
  lemma {:induction false} Scale10Down(v: real, e: nat)
    ensures Scale10(v, -(e as int)) * Pow10(e) as real == v
    decreases e
  {
    if e > 0 {
      var r := Scale10(v / 10.0, -((e - 1) as int));
      assert Scale10(v, -(e as int)) == r;
      Scale10Down(v / 10.0, e - 1);
      ShiftDown(r, v, e);
    }
  }

  lemma ShiftUp(v: real, e: nat)
    requires e > 0
    ensures (v * 10.0) * Pow10(e - 1) as real == v * Pow10(e) as real
  {
    var p := Pow10(e - 1);
    assert Pow10(e) == 10 * p;
  }

  lemma ShiftDown(r: real, v: real, e: nat)
    requires e > 0 && r * Pow10(e - 1) as real == v / 10.0
    ensures r * Pow10(e) as real == v
  {
    var p := Pow10(e - 1);
    assert Pow10(e) == 10 * p;
  }

  /** Where the reader is in the grammar of a float literal. */
  datatype Phase =
    | Lead      // leading white space
    | Signed    // after the sign
    | Whole     // in the digits before the point (at least one seen)
    | Fraction  // after the point
    | Mark      // after `e` or `E`
    | ExpSign   // after the exponent's sign
    | Exponent  // in the exponent digits (at least one seen)
    | Trail     // trailing white space after a complete number

  /**
   * What has been read so far: the sign, the mantissa digits as one integer,
   * how many of them follow the point, whether any mantissa digit was seen,
   * and the exponent.
   */
  datatype Reading = Reading(phase: Phase, negative: bool, mantissa: nat, places: nat,
                             digits: bool, expNegative: bool, exponent: nat)

  const Start := Reading(Lead, false, 0, 0, false, false, 0)

  predicate IsSign(c: char) {
    c == '+' || c == '-'
  }

  predicate IsExponentMark(c: char) {
    c == 'e' || c == 'E'
  }

  /** One character more; None when the text can no longer be a float literal. */
  function Step(r: Reading, c: char): Option<Reading> {
    match r.phase
    case Lead =>
      if IsSpace(c) then Some(r)
      else if IsSign(c) then Some(r.(phase := Signed, negative := c == '-'))
      else if IsDigit(c) then Some(r.(phase := Whole, mantissa := DigitValue(c), digits := true))
      else if c == '.' then Some(r.(phase := Fraction))
      else None
    case Signed =>
      if IsDigit(c) then Some(r.(phase := Whole, mantissa := DigitValue(c), digits := true))
      else if c == '.' then Some(r.(phase := Fraction))
      else None
    case Whole =>
      if IsDigit(c) then Some(r.(mantissa := r.mantissa * 10 + DigitValue(c)))
      else if c == '.' then Some(r.(phase := Fraction))
      else if IsExponentMark(c) then Some(r.(phase := Mark))
      else if IsSpace(c) then Some(r.(phase := Trail))
      else None
    case Fraction =>
      if IsDigit(c) then
        Some(r.(mantissa := r.mantissa * 10 + DigitValue(c), places := r.places + 1, digits := true))
      else if IsExponentMark(c) && r.digits then Some(r.(phase := Mark))
      else if IsSpace(c) && r.digits then Some(r.(phase := Trail))
      else None
    case Mark =>
      if IsSign(c) then Some(r.(phase := ExpSign, expNegative := c == '-'))
      else if IsDigit(c) then Some(r.(phase := Exponent, exponent := DigitValue(c)))
      else None
    case ExpSign =>
      if IsDigit(c) then Some(r.(phase := Exponent, exponent := DigitValue(c)))
      else None
    case Exponent =>
      if IsDigit(c) then Some(r.(exponent := r.exponent * 10 + DigitValue(c)))
      else if IsSpace(c) then Some(r.(phase := Trail))
      else None
    case Trail =>
      if IsSpace(c) then Some(r) else None
  }

  /** A natural number with a sign. */
  function SignedInt(negative: bool, n: nat): int {
    if negative then -(n as int) else n
  }

  /** The number read, once the text has ended; None when it ended too early. */
  function Finish(r: Reading): Option<real> {
    if r.phase in {Whole, Exponent, Trail} || (r.phase == Fraction && r.digits) then
      var v := Scale10(r.mantissa as real, SignedInt(r.expNegative, r.exponent) - r.places);
      Some(if r.negative then -v else v)
    else
      None
  }

  function Read(r: Reading, s: string): Option<real>
    decreases |s|
  {
    if s == [] then Finish(r)
    else
      var next := Step(r, s[0]);
      if next.None? then None else Read(next.value, s[1..])
  }

  /**
   * `float(s)` for a string `s`; None stands for the ValueError it raises.
   * Text without a single digit (empty, blank, a lone sign or point) raises.
   */
  function ParseFloat(s: string): (r: Option<real>)
    ensures !HasDigit(s) ==> r.None?
  {
    if HasDigit(s) then Read(Start, s)
    else
      ReadWithoutDigits(Start, s);
      Read(Start, s)
  }

  /** Whether some character of `s` is a decimal digit. */
  predicate HasDigit(s: string) {
    s != [] && (IsDigit(s[0]) || HasDigit(s[1..]))
  }

  /** Before the first digit the reader is at most past white space, a sign and a point. */
  lemma {:induction false} ReadWithoutDigits(r: Reading, s: string)
    requires r.phase in {Lead, Signed, Fraction} && !r.digits
    requires !HasDigit(s)
    ensures Read(r, s).None?
    decreases |s|
  {
    if s != [] {
      var next := Step(r, s[0]);
      if next.Some? {
        ReadWithoutDigits(next.value, s[1..]);
      }
    }
  }

  /** `int(x)` for a float `x`: truncation toward zero. */
  function Trunc(x: real): (i: int)
    ensures x >= 0.0 ==> 0 <= i && i as real <= x < i as real + 1.0
    ensures x < 0.0 ==> i <= 0 && i as real - 1.0 < x <= i as real
  {
    if x >= 0.0 then x.Floor else -((-x).Floor)
  }

  /** The mantissa after reading the digits `ds` onto `m`, one digit at a time. */
  function Accumulate(m: nat, ds: string): nat
    requires IsDigits(ds)
    decreases |ds|
  {
    if ds == [] then m
    else
      DigitsValueCons(ds);
      Accumulate(m * 10 + DigitValue(ds[0]), ds[1..])
  }

  /** Reading more whole-part digits accumulates them onto the mantissa. */
  lemma {:induction false} ReadWholeDigits(r: Reading, ds: string)
    requires r.phase == Whole && IsDigits(ds)
    ensures Read(r, ds) == Finish(r.(mantissa := Accumulate(r.mantissa, ds)))
    decreases |ds|
  {
    if ds != [] {
      var c, tail := ds[0], ds[1..];
      DigitsValueCons(ds);
      var r' := r.(mantissa := r.mantissa * 10 + DigitValue(c));
      NextWholeDigit(r, c);
      assert Read(r, ds) == Read(r', tail);
      ReadWholeDigits(r', tail);
    }
  }

  /** Accumulating digits shifts the mantissa left by their number and adds their value. */
  lemma {:induction false} AccumulateValue(m: nat, ds: string)
    requires IsDigits(ds)
    ensures Accumulate(m, ds) == m * Pow10(|ds|) + DigitsValue(ds)
    decreases |ds|
  {
    if ds != [] {
      var tail := ds[1..];
      DigitsValueCons(ds);
      var d, p, t := DigitValue(ds[0]), Pow10(|ds| - 1), DigitsValue(tail);
      AccumulateValue(m * 10 + d, tail);
      MantissaShift(m, d, p, t, Pow10(|ds|), DigitsValue(ds));
    }
  }

  lemma NextWholeDigit(r: Reading, c: char)
    requires r.phase == Whole && IsDigit(c)
    ensures Step(r, c) == Some(r.(mantissa := r.mantissa * 10 + DigitValue(c)))
  {
  }

  lemma MantissaShift(m: nat, d: nat, p: nat, rest: nat, shift: nat, value: nat)
    requires shift == 10 * p && value == d * p + rest
    ensures (m * 10 + d) * p + rest == m * shift + value
  {
  }

  function Pow10(k: nat): (p: nat)
    ensures p >= 1
  {
    if k == 0 then 1 else 10 * Pow10(k - 1)
  }

  lemma {:induction false} DigitsTail(ds: string)
    requires IsDigits(ds) && ds != []
    ensures IsDigits(ds[1..])
  {
    if |ds| > 1 {
      DigitsTail(ds[..|ds| - 1]);
      assert ds[..|ds| - 1][1..] == ds[1..][..|ds| - 2];
    }
  }

  /** The value of a digit string, taking its first digit apart. */
  lemma {:induction false} DigitsValueCons(ds: string)
    requires IsDigits(ds) && ds != []
    ensures IsDigit(ds[0]) && IsDigits(ds[1..])
    ensures DigitsValue(ds) == DigitValue(ds[0]) * Pow10(|ds| - 1) + DigitsValue(ds[1..])
  {
    DigitsAt(ds, 0);
    DigitsTail(ds);
    if |ds| > 1 {
      var init, tail := ds[..|ds| - 1], ds[1..];
      DigitsValueCons(init);
      assert init[1..] == tail[..|tail| - 1];
      assert init[0] == ds[0] && tail[|tail| - 1] == ds[|ds| - 1];
      var d, p, rest, last := DigitValue(ds[0]), Pow10(|init| - 1), DigitsValue(init[1..]), DigitValue(ds[|ds| - 1]);
      assert DigitsValue(ds) == DigitsValue(init) * 10 + last;
      assert DigitsValue(tail) == rest * 10 + last;
      assert Pow10(|ds| - 1) == 10 * p;
      LeadingDigitShift(d, p, rest, last);
    } else {
      assert ds[..0] == [] && ds[1..] == [];
    }
  }

  lemma LeadingDigitShift(d: nat, p: nat, rest: nat, last: nat)
    ensures (d * p + rest) * 10 + last == d * (10 * p) + (rest * 10 + last)
  {
  }

  lemma DigitsValueSnoc(ds: string, c: char)
    requires IsDigits(ds) && IsDigit(c)
    ensures IsDigits(ds + [c])
    ensures DigitsValue(ds + [c]) == DigitsValue(ds) * 10 + DigitValue(c)
  {
    assert (ds + [c])[..|ds|] == ds;
  }

  /** Reading back the decimal digits of `n` gives `n`. */
  lemma {:induction false} DigitsValueOfNatText(n: nat)
    ensures DigitsValue(NatText(n)) == n
  {
    if n >= 10 {
      DigitsValueOfNatText(n / 10);
      DigitsValueSnoc(NatText(n / 10), DigitChar(n % 10));
    }
  }

  /** A non-empty digit string, optionally after a sign, reads as its value. */
  lemma ReadDigits(r: Reading, ds: string)
    requires r.phase in {Lead, Signed} && r.places == 0 && r.exponent == 0
    requires ds != [] && IsDigits(ds)
    ensures Read(r, ds) == Some(var v := DigitsValue(ds) as real; if r.negative then -v else v)
  {
    var c := ds[0];
    DigitsValueCons(ds);
    var r' := r.(phase := Whole, mantissa := DigitValue(c), digits := true);
    FirstDigit(r, c);
    assert Read(r, ds) == Read(r', ds[1..]);
    ReadWholeDigits(r', ds[1..]);
    AccumulateValue(DigitValue(c), ds[1..]);
    FinishWhole(r'.(mantissa := DigitsValue(ds)));
  }

  lemma FirstDigit(r: Reading, c: char)
    requires r.phase in {Lead, Signed} && IsDigit(c)
    ensures Step(r, c) == Some(r.(phase := Whole, mantissa := DigitValue(c), digits := true))
  {
  }

  /** A whole number without point or exponent ends as its mantissa, signed. */
  lemma FinishWhole(r: Reading)
    requires r.phase == Whole && r.places == 0 && r.exponent == 0
    ensures Finish(r) == Some(var v := r.mantissa as real; if r.negative then -v else v)
  {
    assert Scale10(r.mantissa as real, 0) == r.mantissa as real;
  }

  /** `float(str(i)) == i` for every integer `i`. */
  lemma ParseFloatOfIntText(i: int)
    ensures ParseFloat(IntText(i)) == Some(i as real)
  {
    var n: nat := if i >= 0 then i else -i;
    var ds := NatText(n);
    DigitsValueOfNatText(n);
    if i >= 0 {
      assert IntText(i) == ds;
      ReadDigits(Start, ds);
    } else {
      var s := IntText(i);
      assert s == "-" + ds && s[1..] == ds;
      var r := Start.(phase := Signed, negative := true);
      assert Step(Start, '-') == Some(r);
      ReadDigits(r, ds);
    }
  }

  /** The sign a `+`, `-` or absent sign text stands for. */
  function WithSign(negative: bool, v: real): real {
    if negative then -v else v
  }

  lemma {:induction false} DigitsAppend(a: string, b: string)
    requires IsDigits(a) && IsDigits(b)
    ensures IsDigits(a + b)
    decreases |b|
  {
    if b != [] {
      var init := b[..|b| - 1];
      DigitsAppend(a, init);
      assert (a + b)[..|a + b| - 1] == a + init;
      assert (a + b)[|a + b| - 1] == b[|b| - 1];
    } else {
      assert a + b == a;
    }
  }

  /** Accumulating two runs of digits one after the other accumulates their concatenation. */
  lemma {:induction false} AccumulateAppend(m: nat, a: string, b: string)
    requires IsDigits(a) && IsDigits(b)
    ensures IsDigits(a + b) && Accumulate(Accumulate(m, a), b) == Accumulate(m, a + b)
    decreases |a|
  {
    DigitsAppend(a, b);
    if a != [] {
      DigitsValueCons(a);
      var m' := m * 10 + DigitValue(a[0]);
      DigitsValueCons(a + b);
      assert (a + b)[0] == a[0] && (a + b)[1..] == a[1..] + b;
      assert Accumulate(m, a) == Accumulate(m', a[1..]);
      assert Accumulate(m, a + b) == Accumulate(m', a[1..] + b);
      AccumulateAppend(m', a[1..], b);
    } else {
      assert a + b == b;
    }
  }

  /** Digits read in the whole part accumulate onto the mantissa; the rest is read afterwards. */
  lemma {:induction false} ReadWholeRun(r: Reading, ds: string, rest: string)
    requires r.phase == Whole && IsDigits(ds)
    ensures Read(r, ds + rest) == Read(r.(mantissa := Accumulate(r.mantissa, ds)), rest)
    decreases |ds|
  {
    if ds == [] {
      assert ds + rest == rest;
    } else {
      DigitsValueCons(ds);
      assert (ds + rest)[0] == ds[0] && (ds + rest)[1..] == ds[1..] + rest;
      ReadWholeRun(r.(mantissa := r.mantissa * 10 + DigitValue(ds[0])), ds[1..], rest);
    }
  }

  /** Digits after the point accumulate onto the mantissa and count as places. */
  lemma {:induction false} ReadFractionRun(r: Reading, ds: string, rest: string)
    requires r.phase == Fraction && IsDigits(ds)
    ensures Read(r, ds + rest)
            == Read(r.(mantissa := Accumulate(r.mantissa, ds), places := r.places + |ds|,
                       digits := r.digits || ds != []), rest)
    decreases |ds|
  {
    if ds == [] {
      assert ds + rest == rest;
    } else {
      DigitsValueCons(ds);
      assert (ds + rest)[0] == ds[0] && (ds + rest)[1..] == ds[1..] + rest;
      var next := r.(mantissa := r.mantissa * 10 + DigitValue(ds[0]), places := r.places + 1, digits := true);
      assert Step(r, ds[0]) == Some(next);
      ReadFractionRun(next, ds[1..], rest);
    }
  }

  /** Exponent digits accumulate onto the exponent. */
  lemma {:induction false} ReadExponentRun(r: Reading, ds: string)
    requires r.phase == Exponent && IsDigits(ds)
    ensures Read(r, ds) == Finish(r.(exponent := Accumulate(r.exponent, ds)))
    decreases |ds|
  {
    if ds != [] {
      DigitsValueCons(ds);
      ReadExponentRun(r.(exponent := r.exponent * 10 + DigitValue(ds[0])), ds[1..]);
    }
  }

  /** The reading after an optional sign. */
  function AfterSign(sign: string): Reading {
    if sign == "" then Start else Start.(phase := Signed, negative := sign == "-")
  }

  lemma ReadSign(sign: string, t: string)
    requires sign in {"", "+", "-"}
    ensures Read(Start, sign + t) == Read(AfterSign(sign), t)
  {
    if sign != "" {
      assert (sign + t)[0] == sign[0] && (sign + t)[1..] == t;
      assert Step(Start, sign[0]) == Some(AfterSign(sign));
    } else {
      assert sign + t == t;
    }
  }

  lemma PointStep(r: Reading)
    requires r.phase in {Lead, Signed}
    ensures Step(r, '.') == Some(r.(phase := Fraction))
  {
    assert !IsSpace('.') && !IsSign('.') && !IsDigit('.');
  }

  /** The digits before the point, then the point: what is left is read in the fraction. */
  lemma ReadWholeToPoint(r: Reading, whole: string, rest: string)
    requires r.phase in {Lead, Signed} && r.mantissa == 0 && !r.digits && IsDigits(whole)
    ensures Read(r, whole + ("." + rest))
            == Read(r.(phase := Fraction, mantissa := Accumulate(0, whole), digits := whole != []), rest)
  {
    var t := whole + ("." + rest);
    if whole == [] {
      assert t == "." + rest && t[1..] == rest;
      PointStep(r);
    } else {
      DigitsValueCons(whole);
      var w := r.(phase := Whole, mantissa := DigitValue(whole[0]), digits := true);
      assert t[0] == whole[0] && t[1..] == whole[1..] + ("." + rest);
      FirstDigit(r, whole[0]);
      assert Read(r, t) == Read(w, whole[1..] + ("." + rest));
      ReadWholeRun(w, whole[1..], "." + rest);
      assert Accumulate(0, whole) == Accumulate(DigitValue(whole[0]), whole[1..]);
      assert ("." + rest)[0] == '.' && ("." + rest)[1..] == rest;
    }
  }

  /** The sign and the digits up to the point: what is left is read in the fraction. */
  lemma ReadUpToPoint(sign: string, whole: string, rest: string)
    requires sign in {"", "+", "-"} && IsDigits(whole)
    ensures Read(Start, sign + (whole + ("." + rest)))
            == Read(Start.(phase := Fraction, negative := sign == "-",
                           mantissa := Accumulate(0, whole), digits := whole != []), rest)
  {
    ReadSign(sign, whole + ("." + rest));
    ReadWholeToPoint(AfterSign(sign), whole, rest);
  }

  /** A complete reading in the fraction or the exponent ends as its signed, shifted mantissa. */
  lemma FinishShifted(r: Reading)
    requires r.phase == Exponent || (r.phase == Fraction && r.digits)
    ensures Finish(r) == Some(WithSign(r.negative, Scale10(r.mantissa as real,
                                 SignedInt(r.expNegative, r.exponent) - r.places)))
  {
  }

  /** The reading once the mantissa's digits, around the point, are all read. */
  function AfterMantissa(sign: string, whole: string, frac: string): Reading
    requires IsDigits(whole + frac)
  {
    Start.(phase := Fraction, negative := sign == "-", mantissa := DigitsValue(whole + frac),
           places := |frac|, digits := true)
  }

  /** The sign and the mantissa's digits, with the point between them. */
  lemma ReadMantissa(sign: string, whole: string, frac: string, rest: string)
    requires sign in {"", "+", "-"} && IsDigits(whole) && IsDigits(frac)
    requires whole != [] || frac != []
    ensures IsDigits(whole + frac)
    ensures Read(Start, sign + (whole + ("." + (frac + rest)))) == Read(AfterMantissa(sign, whole, frac), rest)
  {
    ReadUpToPoint(sign, whole, frac + rest);
    var f := Start.(phase := Fraction, negative := sign == "-", mantissa := Accumulate(0, whole), digits := whole != []);
    ReadFractionRun(f, frac, rest);
    AccumulateAppend(0, whole, frac);
    AccumulateValue(0, whole + frac);
  }

  /**
   * `float` of a decimal with a point, such as "-0.25" or ".5": the digits on
   * both sides form the mantissa, shifted right by the digits after the point.
   */
  lemma ParseFloatOfDecimal(sign: string, whole: string, frac: string)
    requires sign in {"", "+", "-"} && IsDigits(whole) && IsDigits(frac)
    requires whole != [] || frac != []
    ensures IsDigits(whole + frac)
    ensures ParseFloat(sign + (whole + ("." + frac)))
            == Some(WithSign(sign == "-", Scale10(DigitsValue(whole + frac) as real, -|frac|)))
  {
    assert frac + [] == frac;
    ReadMantissa(sign, whole, frac, []);
    FinishShifted(AfterMantissa(sign, whole, frac));
  }

  /** An exponent part after complete mantissa digits sets the exponent to its digits' signed value. */
  lemma ReadExponentPart(r: Reading, mark: char, expSign: string, exp: string)
    requires r.phase == Fraction && r.digits && !r.expNegative && r.exponent == 0
    requires IsExponentMark(mark) && expSign in {"", "+", "-"} && IsDigits(exp) && exp != []
    ensures Read(r, [mark] + (expSign + exp))
            == Finish(r.(phase := Exponent, expNegative := expSign == "-", exponent := DigitsValue(exp)))
  {
    var tail := [mark] + (expSign + exp);
    var k := r.(phase := Mark);
    assert Step(r, mark) == Some(k);
    assert tail[0] == mark && tail[1..] == expSign + exp;
    assert Read(r, tail) == Read(k, expSign + exp);
    ReadSignedExponent(k, expSign, exp);
  }

  /** After the exponent mark: an optional sign and the exponent's digits. */
  lemma ReadSignedExponent(k: Reading, expSign: string, exp: string)
    requires k.phase == Mark && !k.expNegative && k.exponent == 0
    requires expSign in {"", "+", "-"} && IsDigits(exp) && exp != []
    ensures Read(k, expSign + exp)
            == Finish(k.(phase := Exponent, expNegative := expSign == "-", exponent := DigitsValue(exp)))
  {
    var x := if expSign == "" then k else k.(phase := ExpSign, expNegative := expSign == "-");
    if expSign != "" {
      assert (expSign + exp)[0] == expSign[0] && (expSign + exp)[1..] == exp;
      assert Step(k, expSign[0]) == Some(x);
    } else {
      assert expSign + exp == exp;
    }
    assert Read(k, expSign + exp) == Read(x, exp);
    ReadExponentDigits(x, exp);
  }

  lemma ReadExponentDigits(x: Reading, exp: string)
    requires x.phase in {Mark, ExpSign} && x.exponent == 0 && IsDigits(exp) && exp != []
    ensures Read(x, exp) == Finish(x.(phase := Exponent, exponent := DigitsValue(exp)))
  {
    DigitsValueCons(exp);
    var d := x.(phase := Exponent, exponent := DigitValue(exp[0]));
    FirstExponentDigit(x, exp[0]);
    assert Read(x, exp) == Read(d, exp[1..]);
    ReadExponentRun(d, exp[1..]);
    LeadingDigitValue(exp);
  }

  lemma FirstExponentDigit(x: Reading, c: char)
    requires x.phase in {Mark, ExpSign} && IsDigit(c)
    ensures Step(x, c) == Some(x.(phase := Exponent, exponent := DigitValue(c)))
  {
  }

  /** Accumulating a digit string's tail onto its first digit gives its value. */
  lemma LeadingDigitValue(ds: string)
    requires IsDigits(ds) && ds != []
    ensures IsDigit(ds[0]) && IsDigits(ds[1..])
    ensures Accumulate(DigitValue(ds[0]), ds[1..]) == DigitsValue(ds)
  {
    DigitsValueCons(ds);
    assert Accumulate(0, ds) == Accumulate(DigitValue(ds[0]), ds[1..]);
    AccumulateValue(0, ds);
  }

  /** The reading once a mantissa and an exponent are both complete. */
  function AfterExponent(sign: string, whole: string, frac: string, expSign: string, exp: string): Reading
    requires IsDigits(whole + frac) && IsDigits(exp)
  {
    AfterMantissa(sign, whole, frac).(phase := Exponent, expNegative := expSign == "-", exponent := DigitsValue(exp))
  }

  lemma ReadScientific(sign: string, whole: string, frac: string, mark: char, expSign: string, exp: string)
    requires sign in {"", "+", "-"} && IsDigits(whole) && IsDigits(frac)
    requires whole != [] || frac != []
    requires IsExponentMark(mark) && expSign in {"", "+", "-"} && IsDigits(exp) && exp != []
    ensures IsDigits(whole + frac)
    ensures Read(Start, sign + (whole + ("." + (frac + ([mark] + (expSign + exp))))))
            == Finish(AfterExponent(sign, whole, frac, expSign, exp))
  {
    ReadMantissa(sign, whole, frac, [mark] + (expSign + exp));
    ReadExponentPart(AfterMantissa(sign, whole, frac), mark, expSign, exp);
  }

  /**
   * `float` in scientific notation, such as "1.5e1" or "-2.E-3": the
   * mantissa's digits shifted by the exponent less the digits after the point.
   */
  lemma ParseFloatOfScientific(sign: string, whole: string, frac: string, mark: char, expSign: string, exp: string)
    requires sign in {"", "+", "-"} && IsDigits(whole) && IsDigits(frac)
    requires whole != [] || frac != []
    requires IsExponentMark(mark) && expSign in {"", "+", "-"} && IsDigits(exp) && exp != []
    ensures IsDigits(whole + frac)
    ensures ParseFloat(sign + (whole + ("." + (frac + ([mark] + (expSign + exp))))))
            == Some(WithSign(sign == "-", Scale10(DigitsValue(whole + frac) as real,
                                                  SignedInt(expSign == "-", DigitsValue(exp)) - |frac|)))
  {
    ReadScientific(sign, whole, frac, mark, expSign, exp);
    FinishScientific(sign, whole, frac, expSign, exp);
  }

  lemma FinishScientific(sign: string, whole: string, frac: string, expSign: string, exp: string)
    requires IsDigits(whole + frac) && IsDigits(exp)
    ensures Finish(AfterExponent(sign, whole, frac, expSign, exp))
            == Some(WithSign(sign == "-", Scale10(DigitsValue(whole + frac) as real,
                                                  SignedInt(expSign == "-", DigitsValue(exp)) - |frac|)))
  {
    FinishShifted(AfterExponent(sign, whole, frac, expSign, exp));
  }
}
