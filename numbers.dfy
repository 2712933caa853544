/**
 * Text-to-number conversion, standing in for Python's `float(text)` and for
 * pandas' `to_numeric(..., errors="coerce")` on a text cell.  Plain decimal
 * notation only: an optional sign, digits, and an optional fraction part.
 */
module Numbers {

  import opened Wrappers

  predicate IsDigit(c: char)
  {
    '0' <= c <= '9'
  }

  predicate AllDigits(s: string)
  {
    s == [] || (AllDigits(s[..|s| - 1]) && IsDigit(s[|s| - 1]))
  }

  /** The value of a string of decimal digits, most significant first. */
  function DigitsValue(s: string): nat
    requires AllDigits(s)
  {
    if s == [] then 0
    else 10 * DigitsValue(s[..|s| - 1]) + (s[|s| - 1] as int - '0' as int)
  }

  function Pow10(k: nat): (r: nat)
    ensures r >= 1
  {
    if k == 0 then 1 else 10 * Pow10(k - 1)
  }

  /** The index of the first `c` in `s`. */
  function FirstIndex(s: string, c: char): (i: nat)
    requires c in s
    ensures i < |s| && s[i] == c && c !in s[..i]
  {
    if s[0] == c then 0
    else
      assert s == [s[0]] + s[1..];
      1 + FirstIndex(s[1..], c)
  }

  /** An unsigned decimal: `ddd`, `ddd.`, `.ddd` or `ddd.ddd`, with at least one digit. */
  function ParseUnsigned(s: string): (r: Option<real>)
  {
    if AllDigits(s) then
      if s == [] then None else Some(DigitsValue(s) as real)
    else if '.' in s then
      var d := FirstIndex(s, '.');
      var whole, fraction := s[..d], s[d + 1..];
      if AllDigits(whole) && AllDigits(fraction) && |whole| + |fraction| > 0 then
        Some(DigitsValue(whole) as real + DigitsValue(fraction) as real / Pow10(|fraction|) as real)
      else None
    else None
  }

  /** A signed decimal; `None` where Python's `float` would raise `ValueError`. */
  function ParseFloat(s: string): (r: Option<real>)
    ensures r.Some? ==> |s| > 0 && (s[0] == '-' || s[0] == '+' ==> |s| > 1)
  {
    if |s| > 0 && s[0] == '-' then
      match ParseUnsigned(s[1..])
      case Some(v) => Some(-v)
      case None => None
    else if |s| > 0 && s[0] == '+' then ParseUnsigned(s[1..])
    else ParseUnsigned(s)
  }

  lemma {:induction false} AllDigitsAt(s: string, i: nat)
    requires AllDigits(s) && i < |s|
    ensures IsDigit(s[i])
  {
    if i < |s| - 1 {
      AllDigitsAt(s[..|s| - 1], i);
    }
  }

  /** An unsigned decimal is never negative and always contains a digit. */
  lemma ParseUnsignedMeaning(s: string)
    ensures ParseUnsigned(s).Some? ==> ParseUnsigned(s).value >= 0.0 && exists c <- s :: IsDigit(c)
  {
    if ParseUnsigned(s).Some? {
      if AllDigits(s) {
        AllDigitsAt(s, 0);
      } else {
        var d := FirstIndex(s, '.');
        var whole, fraction := s[..d], s[d + 1..];
        if |whole| > 0 {
          AllDigitsAt(whole, 0);
          assert whole[0] == s[0];
        } else {
          AllDigitsAt(fraction, 0);
          assert fraction[0] == s[d + 1];
        }
        var p := Pow10(|fraction|) as real;
        assert DigitsValue(fraction) as real / p >= 0.0;
      }
    }
  }

  /** What `float` accepts always contains a digit, and an unsigned one is never negative. */
  lemma ParseFloatNeedsDigit(s: string)
    ensures ParseFloat(s).Some? ==> exists c <- s :: IsDigit(c)
    ensures |s| > 0 && s[0] != '-' && ParseFloat(s).Some? ==> ParseFloat(s).value >= 0.0
  {
    if |s| > 0 && (s[0] == '-' || s[0] == '+') {
      ParseUnsignedMeaning(s[1..]);
      assert forall c <- s[1..] :: c in s;
    } else {
      ParseUnsignedMeaning(s);
    }
  }

  /** The decimal digits of `n`, most significant first, as `str(n)` writes them. */
  function Digits(n: nat): (r: string)
    ensures |r| > 0 && AllDigits(r)
  {
    var last := ['0' + (n % 10) as char];
    assert last[..0] == [] && AllDigits([]);
    assert IsDigit(last[0]);
    if n < 10 then last
    else
      var front := Digits(n / 10);
      assert (front + last)[..|front|] == front;
      front + last
  }

  /** Reading back the digits of `n` gives `n`. */
  lemma {:induction false} DigitsRoundTrip(n: nat)
    ensures DigitsValue(Digits(n)) == n
  {
    var s := Digits(n);
    if n >= 10 {
      DigitsRoundTrip(n / 10);
      assert s[..|s| - 1] == Digits(n / 10);
    }
  }

  /** `float(str(n))` is `n`, and with a leading minus sign it is `-n`. */
  lemma ParseFloatOfDigits(n: nat)
    ensures ParseFloat(Digits(n)) == Some(n as real)
    ensures ParseFloat("-" + Digits(n)) == Some(-(n as real))
  {
    DigitsRoundTrip(n);
    var s := Digits(n);
    AllDigitsAt(s, 0);
    assert ("-" + s)[1..] == s;
  }

  /** The value of `whole.fraction`: the whole digits plus the fraction digits over their power of ten. */
  function DecimalValue(whole: string, fraction: string): real
    requires AllDigits(whole) && AllDigits(fraction)
  {
    DigitsValue(whole) as real + DigitsValue(fraction) as real / Pow10(|fraction|) as real
  }

  lemma {:induction false} FirstIndexAfter(a: string, b: string, c: char)
    requires c !in a && c in b
    ensures c in a + b && FirstIndex(a + b, c) == |a| + FirstIndex(b, c)
  {
    if a == [] {
      assert a + b == b;
    } else {
      assert a == [a[0]] + a[1..];
      assert (a + b)[0] == a[0];
      assert (a + b)[1..] == a[1..] + b;
      FirstIndexAfter(a[1..], b, c);
    }
  }

  lemma {:induction false} NotAllDigits(s: string, i: nat)
    requires i < |s| && !IsDigit(s[i])
    ensures !AllDigits(s)
  {
    if i < |s| - 1 {
      NotAllDigits(s[..|s| - 1], i);
    }
  }

  /** In `whole + "." + fraction` with a digit-only `whole`, the first point is the one after `whole`. */
  lemma PointAt(whole: string, fraction: string)
    requires AllDigits(whole)
    ensures var s := whole + "." + fraction;
      '.' in s && FirstIndex(s, '.') == |whole| && !AllDigits(s)
  {
    forall j | 0 <= j < |whole| ensures whole[j] != '.' {
      AllDigitsAt(whole, j);
    }
    assert whole + "." + fraction == whole + ("." + fraction);
    FirstIndexAfter(whole, "." + fraction, '.');
    NotAllDigits(whole + "." + fraction, |whole|);
  }

  lemma ParseUnsignedOfDecimal(whole: string, fraction: string)
    requires AllDigits(whole) && AllDigits(fraction) && |whole| + |fraction| > 0
    ensures ParseUnsigned(whole + "." + fraction) == Some(DecimalValue(whole, fraction))
  {
    PointAt(whole, fraction);
    PartsAround(whole, fraction);
  }

  lemma PartsAround(whole: string, fraction: string)
    ensures var s := whole + "." + fraction;
      s[..|whole|] == whole && s[|whole| + 1..] == fraction
  {
  }

  /** Text that starts with neither sign is read as an unsigned decimal. */
  lemma ParseFloatUnsigned(s: string)
    requires s == [] || (s[0] != '-' && s[0] != '+')
    ensures ParseFloat(s) == ParseUnsigned(s)
  {
  }

  /** A leading minus negates the unsigned reading of the rest. */
  lemma ParseFloatNegative(s: string, v: real)
    requires ParseUnsigned(s) == Some(v)
    ensures ParseFloat("-" + s) == Some(-v)
  {
    assert ("-" + s)[1..] == s;
  }

  /**
   * `float("ddd.ddd")` and `float("-ddd.ddd")`: the whole part plus the
   * fraction part, negated under a minus sign.  Either part may be empty,
   * but not both.
   */
  lemma ParseFloatOfDecimal(whole: string, fraction: string)
    requires AllDigits(whole) && AllDigits(fraction) && |whole| + |fraction| > 0
    ensures ParseFloat(whole + "." + fraction) == Some(DecimalValue(whole, fraction))
    ensures ParseFloat("-" + (whole + "." + fraction)) == Some(-DecimalValue(whole, fraction))
  {
    PositiveDecimal(whole, fraction);
    NegativeDecimal(whole, fraction);
  }

  lemma PositiveDecimal(whole: string, fraction: string)
    requires AllDigits(whole) && AllDigits(fraction) && |whole| + |fraction| > 0
    ensures ParseFloat(whole + "." + fraction) == Some(DecimalValue(whole, fraction))
  {
    ParseUnsignedOfDecimal(whole, fraction);
    DecimalUnsigned(whole, fraction);
    ParseFloatUnsigned(whole + "." + fraction);
  }

  lemma NegativeDecimal(whole: string, fraction: string)
    requires AllDigits(whole) && AllDigits(fraction) && |whole| + |fraction| > 0
    ensures ParseFloat("-" + (whole + "." + fraction)) == Some(-DecimalValue(whole, fraction))
  {
    ParseUnsignedOfDecimal(whole, fraction);
    ParseFloatNegative(whole + "." + fraction, DecimalValue(whole, fraction));
  }

  lemma DecimalUnsigned(whole: string, fraction: string)
    requires AllDigits(whole)
    ensures var s := whole + "." + fraction; s[0] != '-' && s[0] != '+'
  {
    if |whole| > 0 {
      AllDigitsAt(whole, 0);
    }
  }

  /** Two query values with a fraction part: `float("20.5")` is 20.5 and `float("-.25")` is -0.25. */
  lemma ParseFloatFractionExamples()
    ensures ParseFloat("20.5") == Some(20.5)
    ensures ParseFloat("-.25") == Some(-0.25)
  {
    TwentyPointFive();
    MinusPointTwentyFive();
  }

  lemma TwentyPointFive()
    ensures ParseFloat("20.5") == Some(20.5)
  {
    assert AllDigits("20") && AllDigits("5");
    assert DigitsValue("20") == 20 && DigitsValue("5") == 5 && Pow10(1) == 10;
    ParseFloatOfDecimal("20", "5");
    assert "20" + "." + "5" == "20.5";
  }

  lemma MinusPointTwentyFive()
    ensures ParseFloat("-.25") == Some(-0.25)
  {
    assert AllDigits("") && AllDigits("25");
    assert DigitsValue("25") == 25 && Pow10(2) == 100;
    ParseFloatOfDecimal("", "25");
    assert "-" + ("" + "." + "25") == "-.25";
  }

  /** Text without any digit is never a number, so `to_numeric` turns it into NaN. */
  lemma NoDigitNoNumber(s: string)
    requires forall c <- s :: !IsDigit(c)
    ensures ParseFloat(s) == None
  {
    ParseFloatNeedsDigit(s);
  }
}
