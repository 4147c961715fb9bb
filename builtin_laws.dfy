/** What the built-ins promise of each other, on argument values: the
    negated built-ins are complements, the number comparisons mirror each
    other, LEFT and RIGHT cut a text in two, and the list built-ins read
    back what the others write. */
module BuiltinLaws {
  import opened JsString
  import opened Numbers
  import opened Lists
  import opened Values
  import opened Evaluator
  import opened Wrappers
  import ListFunctions
  import Partition

  // ---------------------------------------------------------------------
  // arithmetic the comparisons and roundings rest on

  lemma MulLess(x: int, y: int, p: int)
    requires x < y && p > 0
    ensures x * p < y * p
  {
    assert y * p - x * p == (y - x) * p;
  }

  lemma LessOfMul(x: int, y: int, p: int)
    requires x * p < y * p && p > 0
    ensures x < y
  {
    if y <= x {
      if y < x { MulLess(y, x, p); }
    }
  }

  /** `<` on numbers is transitive. */
  lemma LessTransitive(a: Decimal, b: Decimal, c: Decimal)
    requires Less(a, b) && Less(b, c)
    ensures Less(a, c)
  {
    CrossTransitive(a.mantissa, b.mantissa, c.mantissa, Pow10(a.scale), Pow10(b.scale), Pow10(c.scale));
  }

  /** Cross-multiplied fractions `x/p < y/q < z/r` give `x/p < z/r`. */
  lemma CrossTransitive(x: int, y: int, z: int, p: int, q: int, r: int)
    requires p > 0 && q > 0 && r > 0 && x * q < y * p && y * r < z * q
    ensures x * r < z * p
  {
    MulLess(x * q, y * p, r);
    MulLess(y * r, z * q, p);
    MulSwap(x, q, r);
    MulSwap(y, p, r);
    MulSwap(z, q, p);
    LessOfMul(x * r, z * p, q);
  }

  lemma MulSwap(a: int, b: int, c: int)
    ensures (a * b) * c == (a * c) * b
  {
  }

  /** `Math.ceil` is `Math.floor` for a whole number and one more for
      any other. */
  lemma CeilFromFloor(d: Decimal)
    ensures Ceil(d) == if IsInteger(d) then Numbers.Floor(d) else Numbers.Floor(d) + 1
  {
    var p, f, c := Pow10(d.scale), Numbers.Floor(d), Ceil(d);
    if IsInteger(d) {
      IntegerExact(d);
    } else {
      assert d.mantissa == p * (d.mantissa / p) + d.mantissa % p;
      assert f * p < d.mantissa;
      LessOfMul(c - 1, f + 1, p);
      LessOfMul(f, c, p);
    }
  }

  lemma IntegerOfInt(n: int)
    ensures IsInteger(FromInt(n)) && Numbers.Floor(FromInt(n)) == n && Trunc(FromInt(n)) == n
  {
    assert Pow10(0) == 1;
  }

  // ---------------------------------------------------------------------
  // the logic built-ins on any number of arguments

  lemma IsTrueCall(vs: seq<Value>)
    ensures Compute(IsTrue, vs) == Val(Flag(AllTrue(vs)))
  {
    LogicCall(IsTrue, vs);
  }

  lemma AnyTrueCall(vs: seq<Value>)
    ensures Compute(AnyTrue, vs) == Val(Flag(SomeTrue(vs)))
  {
    LogicCall(AnyTrue, vs);
  }

  // ---------------------------------------------------------------------
  // negations and mirrors

  /** `!CONTAINS` is the opposite of `CONTAINS`. */
  lemma ContainsComplement(vs: seq<Value>)
    ensures Compute(Contains, vs) == Outside <==> Compute(NotContains, vs) == Outside
    ensures Compute(Contains, vs) == Val(Flag(true)) <==> Compute(NotContains, vs) == Val(Flag(false))
  {
    TextualCall(Contains, vs);
    TextualCall(NotContains, vs);
  }

  lemma LowerOfUpper(s: string)
    requires IsAscii(s)
    ensures IsAscii(ToUpper(s)) && ToLower(ToUpper(s)) == ToLower(s)
  {
    forall k | 0 <= k < |s| ensures LowerChar(UpperChar(s[k])) == LowerChar(s[k]) {
      var c := s[k];
      if 'a' <= c <= 'z' {
        assert 'A' <= UpperChar(c) <= 'Z';
      }
    }
  }

  /** `CONTAINS` ignores the case of what it looks for. */
  lemma ContainsIgnoresCase(search: string, text: string)
    requires IsAscii(search) && IsAscii(text)
    ensures Compute(Contains, [Str(ToUpper(search)), Str(text)]) == Compute(Contains, [Str(search), Str(text)])
  {
    TextualCall(Contains, [Str(ToUpper(search)), Str(text)]);
    TextualCall(Contains, [Str(search), Str(text)]);
    LowerOfUpper(search);
  }

  // The number built-ins read their arguments with `toNumber` first
  // (`Numeric` hands `NumericOf` what it reads), so their laws are
  // stated on the numbers read.

  /** `GTNUM(a, b)` is `LTNUM(b, a)` and `LTENUM(a, b)` is `GTENUM(b, a)`. */
  lemma ComparisonMirrors(x: Option<Decimal>, y: Option<Decimal>, z: Option<Decimal>, w: Option<Decimal>)
    ensures NumericOf(GtNum, x, y, z) == NumericOf(LtNum, y, x, w)
    ensures NumericOf(LteNum, x, y, z) == NumericOf(GteNum, y, x, w)
  {
  }

  /** `GTENUM` is the opposite of `LTNUM` on the same numbers, and `LTNUM`
      and `GTNUM` never both hold. */
  lemma ComparisonComplement(x: Option<Decimal>, y: Option<Decimal>, z: Option<Decimal>)
    ensures NumericOf(GteNum, x, y, z) == Outside <==> NumericOf(LtNum, x, y, z) == Outside
    ensures NumericOf(GteNum, x, y, z) == Val(Flag(true)) <==> NumericOf(LtNum, x, y, z) == Val(Flag(false))
    ensures !(NumericOf(LtNum, x, y, z) == Val(Flag(true)) && NumericOf(GtNum, x, y, z) == Val(Flag(true)))
  {
  }

  /** `LTNUM` chains. */
  lemma LtNumTransitive(x: Option<Decimal>, y: Option<Decimal>, z: Option<Decimal>, w: Option<Decimal>)
    requires NumericOf(LtNum, x, y, w) == Val(Flag(true)) && NumericOf(LtNum, y, z, w) == Val(Flag(true))
    ensures NumericOf(LtNum, x, z, w) == Val(Flag(true))
  {
    LessTransitive(x.value, y.value, z.value);
  }

  /** `BENUM(x, lo, hi)` holds exactly when `GTENUM(x, lo)` and
      `LTENUM(x, hi)` both do. */
  lemma BetweenIsBothBounds(x: Option<Decimal>, lo: Option<Decimal>, hi: Option<Decimal>, w: Option<Decimal>)
    ensures NumericOf(BeNum, x, lo, hi) == Val(Flag(true)) <==>
      NumericOf(GteNum, x, lo, w) == Val(Flag(true)) && NumericOf(LteNum, x, hi, w) == Val(Flag(true))
  {
  }

  /** `ISEMPTY` is the opposite of `HASVALUE`, and a text has a value
      exactly when some character of it is not white space. */
  lemma HasValueComplement(v: Value)
    ensures Compute(HasValue, [v]) == Val(Flag(!AllSpace(Stringify(v))))
    ensures Compute(IsEmpty, [v]) == Val(Flag(AllSpace(Stringify(v))))
  {
    HasValueOf(v);
    IsEmptyOf(v);
  }

  lemma HasValueOf(v: Value)
    ensures Compute(HasValue, [v]) == Val(Flag(!AllSpace(Stringify(v))))
  {
    LogicCall(HasValue, [v]);
    TrimEmptyIffAllSpace(Stringify(v));
  }

  lemma IsEmptyOf(v: Value)
    ensures Compute(IsEmpty, [v]) == Val(Flag(AllSpace(Stringify(v))))
  {
    LogicCall(IsEmpty, [v]);
    TrimEmptyIffAllSpace(Stringify(v));
  }

  /** `NOT(NOT(x))` is `ISTRUE(x)`. */
  lemma DoubleNegation(v: Value)
    ensures Compute(Not, [v]).Val?
    ensures Compute(Not, [Compute(Not, [v]).v]) == Compute(IsTrue, [v])
  {
    LogicCall(Not, [v]);
    LogicCall(Not, [Compute(Not, [v]).v]);
    IsTrueCall([v]);
  }

  /** The arguments each negated by `NOT`. */
  function Negated(vs: seq<Value>): (r: seq<Value>)
    ensures |r| == |vs| && forall k | 0 <= k < |vs| :: r[k] == Flag(!ToBoolean(vs[k]))
  {
    seq(|vs|, k requires 0 <= k < |vs| => Flag(!ToBoolean(vs[k])))
  }

  /** `ANYTRUE(x, ...)` is `NOT(ISTRUE(NOT(x), ...))`. */
  lemma AnyTrueDeMorgan(vs: seq<Value>)
    ensures Compute(AnyTrue, vs) == Val(Flag(true)) <==> Compute(IsTrue, Negated(vs)) == Val(Flag(false))
  {
    AnyTrueCall(vs);
    IsTrueCall(Negated(vs));
    var n := Negated(vs);
    if SomeTrue(vs) {
      var k :| 0 <= k < |vs| && ToBoolean(vs[k]);
      assert !ToBoolean(n[k]);
    }
    if !AllTrue(n) {
      var k :| 0 <= k < |n| && !ToBoolean(n[k]);
      assert ToBoolean(vs[k]);
    }
  }

  /** `ISTRUE` of some arguments implies `ANYTRUE` of them. */
  lemma IsTrueThenAnyTrue(vs: seq<Value>)
    requires vs != [] && Compute(IsTrue, vs) == Val(Flag(true))
    ensures Compute(AnyTrue, vs) == Val(Flag(true))
  {
    IsTrueCall(vs);
    AnyTrueCall(vs);
    assert AllTrue(vs);
    assert ToBoolean(vs[0]);
  }

  /** With two arguments `EQUALS` compares the texts ... */
  lemma EqualsPair(a: Value, b: Value)
    ensures Compute(EqualsAll, [a, b]) == Val(Flag(Stringify(a) == Stringify(b)))
  {
    TextualCall(EqualsAll, [a, b]);
    var vs := [a, b];
    assert (forall k | 1 <= k < |vs| :: Stringify(vs[k]) == Stringify(a)) <==> Stringify(b) == Stringify(a) by {
      assert vs[1] == b;
    }
  }

  /** ... and `!EQUALS` is its opposite. */
  lemma NotEqualsPair(a: Value, b: Value)
    ensures Compute(NotEqualsAll, [a, b]) == Val(Flag(Stringify(a) != Stringify(b)))
  {
    TextualCall(NotEqualsAll, [a, b]);
    var vs := [a, b];
    assert (forall k | 1 <= k < |vs| :: Stringify(vs[k]) != Stringify(a)) <==> Stringify(b) != Stringify(a) by {
      assert vs[1] == b;
    }
  }

  // ---------------------------------------------------------------------
  // texts

  /** `LEFT(k, s)` is the first `k` characters ... */
  lemma LeftPrefix(s: string, k: int)
    requires 0 <= k <= |s|
    ensures Compute(Left, [Num(k), Str(s)]) == Val(Str(s[..k]))
  {
    CountedPair(Left, Num(k), s);
    IntegerOfInt(k);
  }

  /** ... and `RIGHT(len - k, s)` the rest, so the two put together are
      `s` again. */
  lemma RightSuffix(s: string, k: int)
    requires 0 <= k <= |s|
    ensures Compute(Right, [Num(|s| - k), Str(s)]) == Val(Str(s[k..]))
    ensures s[..k] + s[k..] == s
  {
    CountedPair(Right, Num(|s| - k), s);
    IntegerOfInt(|s| - k);
  }

  /** `RIGHT` with a count beyond the length gives all of the text, and
      `LEFT` too. */
  lemma WholeText(s: string, k: int)
    requires k >= |s|
    ensures Compute(Left, [Num(k), Str(s)]) == Val(Str(s))
    ensures Compute(Right, [Num(k), Str(s)]) == Val(Str(s))
  {
    CountedPair(Left, Num(k), s);
    CountedPair(Right, Num(k), s);
    IntegerOfInt(k);
  }

  /** `LOWERCASE` twice is `LOWERCASE` once. */
  lemma LowercaseIdempotent(v: Value)
    ensures Compute(Lowercase, [v]).Val? ==>
      Compute(Lowercase, [Compute(Lowercase, [v]).v]) == Compute(Lowercase, [v])
  {
    TextualCall(Lowercase, [v]);
    var s := Stringify(v);
    if IsAscii(s) {
      var t := ToLower(s);
      LowerOfLower(s);
      TextualCall(Lowercase, [Str(t)]);
    }
  }

  lemma LowerOfLower(s: string)
    requires IsAscii(s)
    ensures IsAscii(ToLower(s)) && ToLower(ToLower(s)) == ToLower(s)
  {
    var t := ToLower(s);
    forall k | 0 <= k < |t| ensures t[k] <= '\U{7F}' && LowerChar(t[k]) == t[k] {
      if 'A' <= s[k] <= 'Z' { assert 'a' <= t[k] <= 'z'; }
    }
  }

  // ---------------------------------------------------------------------
  // lists

  /** `APPEND(";", x, ...)` builds a list whose non-empty items are the
      non-empty arguments, in order, as long as none holds a `;`. */
  lemma AppendReadsBack(parts: seq<Value>)
    requires forall k | 0 <= k < |parts| :: ';' !in Stringify(parts[k])
    ensures Compute(Append, [Str(";")] + parts).Val?
    ensures ListFunctions.Present(ListFunctions.Items(Compute(Append, [Str(";")] + parts).v.s))
      == ListFunctions.Present(Texts(parts))
  {
    var vs := [Str(";")] + parts;
    TextualCall(Append, vs);
    assert vs[1..] == parts;
    var present := ListFunctions.Present(Texts(parts));
    ListFunctions.PresentFree(Texts(parts));
    ListFunctions.PresentItemsOfJoin(present);
  }

  /** `LISTINDEX(0, s)` is the list itself. */
  lemma ListIndexZero(s: string)
    ensures Compute(ListIndex, [Num(0), Str(s)]) == Val(Str(s))
  {
    CountedCall(ListIndex, [Num(0), Str(s)]);
    SplitOnJoin(s, ";");
  }

  lemma ListIndexCall(k: int, s: string)
    ensures Compute(ListIndex, [Num(k), Str(s)]) == Val(Str(ListFunctions.Pick(ListFunctions.Items(s), FromInt(k))))
  {
    CountedPair(ListIndex, Num(k), s);
  }

  /** `LISTINDEX(k, ...)` of a list joined with `;` is its `k`th item. */
  lemma ListIndexOfJoin(parts: seq<string>, k: int)
    requires 1 <= k <= |parts| && forall j | 0 <= j < |parts| :: ';' !in parts[j]
    ensures Compute(ListIndex, [Num(k), Str(Join(parts, ";"))]) == Val(Str(parts[k - 1]))
  {
    ListIndexCall(k, Join(parts, ";"));
    SplitOnOfJoin(parts, ";");
    IntegerOfInt(k);
  }

  lemma {:induction false} SplitOnKeepsOut(s: string, sep: string, c: char)
    requires sep != [] && c !in s
    ensures forall k | 0 <= k < |SplitOn(s, sep)| :: c !in SplitOn(s, sep)[k]
    decreases |s|
  {
    var i := IndexOf(s, sep);
    if i >= 0 {
      var tail := s[i + |sep|..];
      assert forall j | 0 <= j < |tail| :: tail[j] == s[i + |sep| + j];
      SplitOnKeepsOut(tail, sep, c);
      var parts, rest := SplitOn(s, sep), SplitOn(tail, sep);
      assert parts == [s[..i]] + rest;
      forall k | 0 <= k < |parts| ensures c !in parts[k] {
        if k > 0 { assert parts[k] == rest[k - 1]; }
      }
    }
  }

  /** A list without line breaks, written one item per line and split
      into lines again, gives its items back: `LINESPLIT(k,
      LISTASLINES(s))` is `LISTINDEX(k, s)`. */
  lemma LinesOfListAsLines(s: string, k: Value)
    requires '\n' !in s && '\r' !in s
    ensures ListFunctions.Lines(ListFunctions.ListAsLines(s)) == ListFunctions.Items(s)
    ensures Compute(LineSplit, [k, Str(ListFunctions.ListAsLines(s))]) == Compute(ListIndex, [k, Str(s)])
  {
    LinesOfListAsLinesItems(s);
    LineSplitAsListIndex(k, ListFunctions.ListAsLines(s), s);
  }

  /** `LINESPLIT` of a text whose lines are the items of a list picks
      what `LISTINDEX` picks from the list. */
  lemma LineSplitAsListIndex(k: Value, lines: string, s: string)
    requires ListFunctions.Lines(lines) == ListFunctions.Items(s)
    ensures Compute(LineSplit, [k, Str(lines)]) == Compute(ListIndex, [k, Str(s)])
  {
    LineSplitOf(k, lines);
    ListIndexOf(k, s);
  }

  /** `LINESPLIT(k, s)` picks from the lines of `s` ... */
  lemma LineSplitOf(k: Value, s: string)
    ensures Compute(LineSplit, [k, Str(s)]) ==
      if ToNumber(k).None? then Outside else Val(Str(ListFunctions.Pick(ListFunctions.Lines(s), ToNumber(k).value)))
  {
    CountedPair(LineSplit, k, s);
  }

  /** ... and `LISTINDEX(k, s)` from its items. */
  lemma ListIndexOf(k: Value, s: string)
    ensures Compute(ListIndex, [k, Str(s)]) ==
      if ToNumber(k).None? then Outside else Val(Str(ListFunctions.Pick(ListFunctions.Items(s), ToNumber(k).value)))
  {
    CountedPair(ListIndex, k, s);
  }

  /** A count and a text, for the built-ins that read the count first. */
  lemma CountedPair(b: Builtin, k: Value, s: string)
    requires IsCounted(b) && b != Split
    ensures Compute(b, [k, Str(s)]) ==
      if ToNumber(k).None? then Outside else CountedBy(b, ToNumber(k).value, s, [k, Str(s)])
  {
    CountedCall(b, [k, Str(s)]);
    assert Text([k, Str(s)], 1) == s;
  }

  lemma LinesOfListAsLinesItems(s: string)
    requires '\n' !in s && '\r' !in s
    ensures ListFunctions.Lines(ListFunctions.ListAsLines(s)) == ListFunctions.Items(s)
  {
    var items := ListFunctions.Items(s);
    SplitOnKeepsOut(s, ";", '\n');
    SplitOnKeepsOut(s, ";", '\r');
    SplitOnOfJoin(items, "\n");
    var lines := ListFunctions.Lines(Join(items, "\n"));
    forall j | 0 <= j < |items| ensures lines[j] == items[j] {
      if items[j] != [] {
        assert items[j][|items[j]| - 1] in items[j];
      }
    }
  }

  /** `PARTITION(n, d)` of whole numbers: nothing for `n <= 0`, no end for
      a positive `n` and a divisor that is not positive, and otherwise
      the pieces `Partition.Pieces` describes. */
  lemma PartitionOfWholeNumbers(n: int, d: int)
    ensures Compute(Partition, [Num(n), Num(d)]) ==
      if n <= 0 then Val(Str(""))
      else if d <= 0 then Diverges
      else Val(Str(Partition.PiecesText(Partition.Pieces(n, d))))
  {
    NumericCall(Partition, [Num(n), Num(d)]);
    IntegerOfInt(n);
    IntegerOfInt(d);
  }

  /** `FLOOR` and `CEILING` of the same number: the ceiling is the floor
      for a whole number and one more for any other. */
  lemma FloorAndCeiling(x: Option<Decimal>, y: Option<Decimal>, z: Option<Decimal>)
    ensures x.None? ==> NumericOf(Floor, x, y, z) == Outside && NumericOf(Ceiling, x, y, z) == Outside
    ensures x.Some? ==>
      && NumericOf(Floor, x, y, z) == Val(Num(Numbers.Floor(x.value)))
      && NumericOf(Ceiling, x, y, z) ==
        Val(Num(if IsInteger(x.value) then Numbers.Floor(x.value) else Numbers.Floor(x.value) + 1))
  {
    if x.Some? {
      CeilFromFloor(x.value);
    }
  }

  /** `LISTCOUNT` of one argument counts its non-blank items; of several,
      the non-blank arguments. */
  lemma ListCountOfItems(parts: seq<string>)
    requires |parts| >= 1 && forall j | 0 <= j < |parts| :: ';' !in parts[j]
    ensures Compute(ListCount, [Str(Join(parts, ";"))]) == Val(Num(|Filter(parts, ListFunctions.NotBlank)|))
  {
    ListwiseCall(ListCount, [Str(Join(parts, ";"))]);
    SplitOnOfJoin(parts, ";");
  }
}
