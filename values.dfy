/** The values a formula computes and the evaluator's three conversions:
    `stringify`, `toNumber` and `toBoolean`. */
module Values {
  import opened Wrappers
  import opened JsString
  import opened Numbers

  /** A JavaScript value as the evaluator sees it: a string, an integer
      number, a boolean, or `null`/`undefined`. */
  datatype Value = Str(s: string) | Num(n: int) | Bool(b: bool) | Null

  /** `stringify`: booleans as "1"/"0", `null` as "", numbers in decimal. */
  function Stringify(v: Value): (r: string)
    ensures v.Str? ==> r == v.s
    ensures v.Num? ==>
      r != [] && (r[0] == '-' <==> v.n < 0) && forall k | 0 <= k < |r| :: NumberChar(r[k])
    ensures v.Bool? ==> r == DecimalString(if v.b then 1 else 0)
    ensures r == [] <==> v == Null || v == Str([])
  {
    NumberText(v);
    match v
    case Str(s) => s
    case Num(n) => DecimalString(n)
    case Bool(b) => if b then "1" else "0"
    case Null => ""
  }

  /** `[0-9.\-]`, the characters `toNumber` keeps. */
  predicate NumberChar(c: char) { IsDigit(c) || c == '.' || c == '-' }

  /** The text of a number is made of the characters `toNumber` keeps,
      and the text of 1 and 0 is "1" and "0". */
  lemma NumberText(v: Value)
    ensures v.Num? ==> forall k | 0 <= k < |DecimalString(v.n)| :: NumberChar(DecimalString(v.n)[k])
    ensures DecimalString(1) == "1" && DecimalString(0) == "0"
  {
    if v.Num? {
      var n := v.n;
      var s := DecimalString(n);
      forall k | 0 <= k < |s| ensures NumberChar(s[k]) {
        if n < 0 && k > 0 { assert s[k] == s[1..][k - 1]; }
        else if n >= 0 { assert s[k] == s[0..][k]; }
      }
    }
  }

  /** `toNumber`: a number as it is; anything else stringified, stripped
      to digits, dots and minus signs, and read with `parseFloat`, 0 when
      that reads nothing. None when the number read has more significant
      digits than a double holds exactly or is too small for a normal
      double; 0 when it is too small for any double. */
  function ToNumber(v: Value): (r: Option<Decimal>)
    ensures v.Num? ==> r == Some(FromInt(v.n))
    ensures !v.Num? && r.Some? ==> Exact(r.value)
  {
    if v.Num? then Some(FromInt(v.n))
    else
      match ParseDecimalPrefix(FilterChars(Stringify(v), NumberChar))
      case None => Some(FromInt(0))
      case Some(d) =>
        if Underflows(d) then Some(FromInt(0))
        else if Exact(d) then Some(d)
        else None
  }

  /** Text whose number is too small for a double reads as 0, as
      `parseFloat(str) || 0` does. */
  lemma TinyTextReadsZero(s: string, d: Decimal)
    requires ParseDecimalPrefix(FilterChars(s, NumberChar)) == Some(d) && Underflows(d)
    ensures ToNumber(Str(s)) == Some(FromInt(0))
  {
  }

  /** `toBoolean`: a boolean as it is, a number when positive, and text
      when it lowercases to "true" or "1" or reads as a positive number. */
  function ToBoolean(v: Value): (r: bool)
    ensures v.Bool? ==> r == v.b
    ensures v.Num? ==> r == (v.n > 0)
    ensures v.Str? && (ToLower(v.s) == "true" || ToLower(v.s) == "1") ==> r
    ensures v == Null || v == Str([]) ==> !r
  {
    match v
    case Bool(b) => b
    case Num(n) => n > 0
    case _ =>
      var str := ToLower(Stringify(v));
      str == "true" || str == "1" || ParsesPositive(str)
  }

  // ---------------------------------------------------------------------
  // a number and its text agree

  lemma DigitsOnlyKept(s: string)
    requires forall k | 0 <= k < |s| :: NumberChar(s[k])
    ensures FilterChars(s, NumberChar) == s
  {
    FilterKeepsAll(s, NumberChar);
  }

  lemma LowerOfDecimal(n: int)
    ensures ToLower(DecimalString(n)) == DecimalString(n)
  {
    var s := DecimalString(n);
    assert forall k | 0 <= k < |s| :: LowerChar(s[k]) == s[k] by {
      forall k | 0 <= k < |s| ensures LowerChar(s[k]) == s[k] {
        if n < 0 && k > 0 { assert s[k] == NatDigits(-n)[k - 1]; }
      }
    }
  }

  /** The text of a number reads back as that number, as long as a double
      holds it exactly. */
  lemma ToNumberOfText(n: int)
    requires Exact(FromInt(n))
    ensures ToNumber(Str(Stringify(Num(n)))) == Some(FromInt(n))
  {
    var s := Stringify(Num(n));
    DigitsOnlyKept(s);
    ParseDecimalString(n);
  }

  /** How `parseFloat` sees the text of an integer: no leading blank, an
      optional minus sign, then digits to the end. */
  lemma DecimalShape(n: int)
    ensures var s := DecimalString(n);
      var a := if n < 0 then 1 else 0;
      && TrimStart(s) == s
      && (s[0] == '-' <==> n < 0) && s[0] != '+'
      && !StartsWith(s[a..], "Infinity")
      && MantissaAt(s, a) == Mantissa(NatDigits(if n < 0 then -n else n), [], |s|)
  {
    var s := DecimalString(n);
    var digits := NatDigits(if n < 0 then -n else n);
    var a := if n < 0 then 1 else 0;
    assert s[a..] == digits;
    assert s[0] == '-' || IsDigit(s[0]) by {
      if n >= 0 { assert IsDigit(digits[0]); }
    }
    assert !IsSpace(s[0]);
    assert IsDigit(s[a..][0]);
    AllDigitsDecimalEnd(s, a);
  }

  /** `parseFloat(String(n)) > 0` exactly when `n > 0`. */
  lemma PositiveText(n: int)
    ensures ParsesPositive(DecimalString(n)) <==> n > 0
  {
    var s := DecimalString(n);
    var a := if n < 0 then 1 else 0;
    var digits := NatDigits(if n < 0 then -n else n);
    DecimalShape(n);
    PlainDecimalPositive(s, a);
    WholeDecimalPositive(s, a, digits);
    NatDigitsValue(if n < 0 then -n else n);
  }

  /** A number and its text are equally true. */
  lemma ToBooleanOfText(n: int)
    ensures ToBoolean(Str(Stringify(Num(n)))) == ToBoolean(Num(n))
  {
    var s := DecimalString(n);
    LowerOfDecimal(n);
    TextTruth(s);
    PositiveText(n);
    NoLetterFirst(n);
    if s == "1" {
      assert DecimalString(1) == "1";
      PositiveText(1);
    }
  }

  /** Text that lowercases to itself is true as `toBoolean` reads it. */
  lemma TextTruth(s: string)
    requires ToLower(s) == s
    ensures ToBoolean(Str(s)) <==> s == "true" || s == "1" || ParsesPositive(s)
  {
  }

  /** The text of a number starts with a minus sign or a digit, so it is
      never "true". */
  lemma NoLetterFirst(n: int)
    ensures DecimalString(n) != "true"
  {
    var s := DecimalString(n);
    if n >= 0 {
      assert s == NatDigits(n) && IsDigit(s[0]);
    } else {
      assert s[0] == '-';
    }
  }

  /** A boolean and its text "1"/"0" are equally true. */
  lemma ToBooleanOfBoolText(b: bool)
    ensures ToBoolean(Str(Stringify(Bool(b)))) == b
  {
    var s := Stringify(Bool(b));
    assert ToLower(s) == s;
    if !b {
      assert s == DecimalString(0);
      PositiveText(0);
    }
  }
}
