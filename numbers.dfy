/** JavaScript's reading of numbers out of text, kept exact: `parseFloat`
    on the strings the formula compiler hands it, the integer conversions
    `substring` and `Math.floor` apply, and comparisons. A number is a
    decimal fraction `mantissa / 10^scale`. */
module Numbers {
  import opened Wrappers
  import opened JsString

  function Pow10(k: nat): (r: nat)
    ensures r >= 1
  {
    if k == 0 then 1 else 10 * Pow10(k - 1)
  }

  /** 2^1075: half the smallest subnormal double is its reciprocal. */
  const TwoTo1075: nat :=
    404_804_506_614_621_236_704_990_693_437_834_614_099_113_299_528_284_236_713_802_716_054_860_679_135_990_693_783_920_767_402_874_248_990_374_155_728_633_623_822_779_617_474_771_586_953_734_026_799_881_477_019_843_034_848_553_132_722_728_933_815_484_186_432_682_479_535_356_945_490_137_124_014_966_849_385_397_236_206_711_298_319_112_681_620_113_024_717_539_104_666_829_230_461_005_064_372_655_017_292_012_526_615_415_482_186_989_568

  /** The number `mantissa / 10^scale`. */
  datatype Decimal = Decimal(mantissa: int, scale: nat)

  function FromInt(n: int): Decimal { Decimal(n, 0) }

  predicate IsInteger(d: Decimal) { d.mantissa % Pow10(d.scale) == 0 }

  /** At most fifteen significant digits, and 0 or at least 10^-307 in
      size, so within the normal doubles: every such decimal becomes a
      distinct double, which prints back as the same decimal, so exact
      arithmetic on it agrees with the double arithmetic of the source. */
  predicate Exact(d: Decimal) {
    && -(Pow10(15) as int) < d.mantissa < Pow10(15)
    && (d.mantissa == 0 || d.scale <= 307)
  }

  /** A number other than 0 that is at most 2^-1075 in size: the nearest
      double, and so what `parseFloat` reads, is 0. */
  predicate Underflows(d: Decimal) {
    d.mantissa != 0 && (if d.mantissa < 0 then -d.mantissa else d.mantissa) * TwoTo1075 <= Pow10(d.scale)
  }

  /** `Math.floor`. */
  function Floor(d: Decimal): (r: int)
    ensures r * Pow10(d.scale) <= d.mantissa < (r + 1) * Pow10(d.scale)
  {
    d.mantissa / Pow10(d.scale)
  }

  /** `Math.ceil`. */
  function Ceil(d: Decimal): (r: int)
    ensures (r - 1) * Pow10(d.scale) < d.mantissa <= r * Pow10(d.scale)
  {
    -Floor(Decimal(-d.mantissa, d.scale))
  }

  /** The integer JavaScript's `ToIntegerOrInfinity` makes of a number:
      the fraction dropped, toward zero. */
  function Trunc(d: Decimal): (r: int)
    ensures d.mantissa >= 0 ==> r == Floor(d)
    ensures d.mantissa < 0 ==> r == Ceil(d)
  {
    if d.mantissa >= 0 then Floor(d) else Ceil(d)
  }

  lemma IntegerExact(d: Decimal)
    requires IsInteger(d)
    ensures Floor(d) * Pow10(d.scale) == d.mantissa
    ensures Trunc(d) == Floor(d) == Ceil(d)
  {
  }

  /** `a < b` on the numbers' values. */
  predicate Less(a: Decimal, b: Decimal) {
    a.mantissa * Pow10(b.scale) < b.mantissa * Pow10(a.scale)
  }

  predicate Same(a: Decimal, b: Decimal) {
    a.mantissa * Pow10(b.scale) == b.mantissa * Pow10(a.scale)
  }

  // ---------------------------------------------------------------------
  // number syntax

  /** The end of the run of digits that starts at `i`. */
  function DigitsEnd(s: string, i: nat): (r: nat)
    requires i <= |s|
    ensures i <= r <= |s| && AllDigits(s[i..r])
    ensures r == |s| || !IsDigit(s[r])
    decreases |s| - i
  {
    if i < |s| && IsDigit(s[i]) then
      var r := DigitsEnd(s, i + 1);
      assert s[i..r] == [s[i]] + s[i + 1..r];
      r
    else i
  }

  /** The longest `digits [. digits]` at position `a`: the integer digits,
      the fraction digits and where the match ends. */
  datatype Mantissa = Mantissa(intDigits: string, fracDigits: string, end: nat)

  function MantissaAt(s: string, a: nat): (r: Mantissa)
    requires a <= |s|
    ensures AllDigits(r.intDigits) && AllDigits(r.fracDigits)
    ensures a <= r.end <= |s|
  {
    var b := DigitsEnd(s, a);
    if b < |s| && s[b] == '.' then
      var c := DigitsEnd(s, b + 1);
      Mantissa(s[a..b], s[b + 1..c], c)
    else Mantissa(s[a..b], [], b)
  }

  /** A number starts at `s[a..]`: a digit, or a dot and a digit. */
  predicate NumberStartsAt(s: string, a: nat) {
    (a < |s| && IsDigit(s[a])) || (a + 1 < |s| && s[a] == '.' && IsDigit(s[a + 1]))
  }

  /** `parseFloat` on text made of digits, dots and minus signs only: an
      optional `-` and the longest decimal after it, or nothing (`NaN`). */
  function ParseDecimalPrefix(s: string): (r: Option<Decimal>)
    ensures r.Some? <==> NumberStartsAt(s, if s != [] && s[0] == '-' then 1 else 0)
  {
    var neg := s != [] && s[0] == '-';
    var a := if neg then 1 else 0;
    var m := MantissaAt(s, a);
    if m.intDigits == [] && m.fracDigits == [] then None
    else
      var v: int := DigitsValue(m.intDigits + m.fracDigits);
      Some(Decimal(if neg then -v else v, |m.fracDigits|))
  }

  lemma AllDigitsDecimalEnd(s: string, i: nat)
    requires i <= |s| && AllDigits(s[i..])
    ensures DigitsEnd(s, i) == |s|
    decreases |s| - i
  {
    if i < |s| {
      assert s[i] == s[i..][0];
      assert s[i + 1..] == s[i..][1..];
      AllDigitsDecimalEnd(s, i + 1);
    }
  }

  /** `parseFloat(String(n))` is `n` again for every integer. */
  lemma ParseDecimalString(n: int)
    ensures ParseDecimalPrefix(DecimalString(n)) == Some(FromInt(n))
  {
    var s := DecimalString(n);
    var a := if n < 0 then 1 else 0;
    var digits := NatDigits(if n < 0 then -n else n);
    assert s[a..] == digits;
    AllDigitsDecimalEnd(s, a);
    assert s[a..|s|] == digits;
    NatDigitsValue(if n < 0 then -n else n);
    assert digits + [] == digits;
  }

  /** The exponent `e[+-]digits` at position `c`, or 0 when there is none. */
  function ExponentAt(s: string, c: nat): int
    requires c <= |s|
  {
    if c < |s| && (s[c] == 'e' || s[c] == 'E') then
      var sign := if c + 1 < |s| && (s[c + 1] == '+' || s[c + 1] == '-') then 1 else 0;
      var d := DigitsEnd(s, c + 1 + sign);
      if d == c + 1 + sign then 0
      else if sign == 1 && s[c + 1] == '-' then -(DigitsValue(s[c + 2..d]) as int)
      else DigitsValue(s[c + 1 + sign..d])
    else 0
  }

  /** `parseFloat(s) > 0` for any text: leading blanks skipped, an optional
      sign, then `Infinity` or a decimal with an optional exponent. A value
      below half the smallest subnormal double (2^-1075) reads as 0. */
  predicate ParsesPositive(s: string) {
    var t := TrimStart(s);
    var signed := t != [] && (t[0] == '+' || t[0] == '-');
    var neg := signed && t[0] == '-';
    var a := if signed then 1 else 0;
    if StartsWith(t[a..], "Infinity") then !neg
    else !neg && DecimalPositive(t, a)
  }

  /** The decimal at `t[a..]`, with its exponent, is there and reads as a
      number above 0. */
  predicate DecimalPositive(t: string, a: nat)
    requires a <= |t|
  {
    var m := MantissaAt(t, a);
    && (m.intDigits != [] || m.fracDigits != [])
    && var v := DigitsValue(m.intDigits + m.fracDigits);
      var e := ExponentAt(t, m.end) - |m.fracDigits|;
      v > 0 && (e >= 0 || v * TwoTo1075 > Pow10(-e))
  }

  /** With no blank in front, no `+`, and no `Infinity`, the text reads
      as positive exactly when it has no minus sign and its decimal does. */
  lemma PlainDecimalPositive(s: string, a: nat)
    requires s != [] && TrimStart(s) == s && s[0] != '+'
    requires a == if s[0] == '-' then 1 else 0
    requires !StartsWith(s[a..], "Infinity")
    ensures ParsesPositive(s) <==> s[0] != '-' && DecimalPositive(s, a)
  {
  }

  /** A decimal of digits only, up to the end of the text, is positive
      exactly when its digits are. */
  lemma WholeDecimalPositive(t: string, a: nat, digits: string)
    requires a <= |t| && digits != []
    requires MantissaAt(t, a) == Mantissa(digits, [], |t|)
    ensures DecimalPositive(t, a) <==> DigitsValue(digits) > 0
  {
    assert ExponentAt(t, |t|) == 0;
    assert digits + [] == digits;
  }
}
