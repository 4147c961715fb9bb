/** The JavaScript string primitives the formula compiler and the editor
    helpers rely on: the `\s` character class, `trim`, `indexOf`,
    `lastIndexOf`, `substring`, `split` and `join`, and ASCII case mapping.
    Strings are sequences of characters; each JavaScript code unit is one
    `char` here. */
module JsString {

  /** JavaScript's `\s` class, which is also the set `trim` strips:
      the ASCII blanks, NBSP, the Unicode space separators, the line and
      paragraph separators and the byte-order mark. */
  const Spaces: set<char> := {
    ' ', '\t', '\n', '\r', '\U{B}', '\U{C}', '\U{A0}', '\U{1680}',
    '\U{2000}', '\U{2001}', '\U{2002}', '\U{2003}', '\U{2004}', '\U{2005}',
    '\U{2006}', '\U{2007}', '\U{2008}', '\U{2009}', '\U{200A}',
    '\U{2028}', '\U{2029}', '\U{202F}', '\U{205F}', '\U{3000}', '\U{FEFF}'
  }

  predicate IsSpace(c: char) { c in Spaces }

  predicate IsDigit(c: char) { '0' <= c <= '9' }

  predicate IsAsciiLetter(c: char) { 'a' <= c <= 'z' || 'A' <= c <= 'Z' }

  /** `[a-zA-Z0-9_]`, JavaScript's `\w`. */
  predicate IsWordChar(c: char) { IsAsciiLetter(c) || IsDigit(c) || c == '_' }

  predicate AllSpace(s: string) { forall i | 0 <= i < |s| :: IsSpace(s[i]) }

  // ---------------------------------------------------------------------
  // trim

  function TrimStart(s: string): (r: string)
    ensures |r| <= |s| && r == s[|s| - |r|..]
    ensures AllSpace(s[..|s| - |r|])
    ensures r == [] || !IsSpace(r[0])
  {
    if s == [] || !IsSpace(s[0]) then s else TrimStart(s[1..])
  }

  function TrimEnd(s: string): (r: string)
    ensures |r| <= |s| && r == s[..|r|]
    ensures AllSpace(s[|r|..])
    ensures r == [] || !IsSpace(r[|r| - 1])
  {
    if s == [] || !IsSpace(s[|s| - 1]) then s else TrimEnd(s[..|s| - 1])
  }

  /** `String.prototype.trim`. */
  function Trim(s: string): (r: string)
    ensures |r| <= |s|
    ensures r == [] || (!IsSpace(r[0]) && !IsSpace(r[|r| - 1]))
    ensures CutFromEnds(s, |s| - |TrimStart(s)|, r)
  {
    var t := TrimStart(s);
    var r := TrimEnd(t);
    CutBothEnds(s, |s| - |t|, t, r);
    r
  }

  /** `r` is the stretch of `s` from `i` on, with only blanks before and
      after it. */
  predicate CutFromEnds(s: string, i: nat, r: string) {
    i + |r| <= |s| && r == s[i..i + |r|] && AllSpace(s[..i]) && AllSpace(s[i + |r|..])
  }

  /** Cutting blanks from the start, then from the end, leaves a middle
      stretch of the text. */
  lemma CutBothEnds(s: string, i: nat, t: string, r: string)
    requires i <= |s| && t == s[i..] && AllSpace(s[..i])
    requires |r| <= |t| && r == t[..|r|] && AllSpace(t[|r|..])
    ensures CutFromEnds(s, i, r)
  {
    assert s[i..i + |r|] == t[..|r|];
    assert s[i + |r|..] == t[|r|..];
  }

  lemma BlanksBefore(s: string, k: nat)
    requires k <= |s| && AllSpace(s[..k])
    ensures forall i | 0 <= i < k :: IsSpace(s[i])
  {
    forall i | 0 <= i < k ensures IsSpace(s[i]) { assert s[..k][i] == s[i]; }
  }

  lemma BlanksFrom(s: string, k: nat)
    requires k <= |s| && AllSpace(s[k..])
    ensures forall i | k <= i < |s| :: IsSpace(s[i])
  {
    forall i | k <= i < |s| ensures IsSpace(s[i]) { assert s[k..][i - k] == s[i]; }
  }

  /** `TrimStart` cuts exactly the blanks before the first other
      character. */
  lemma TrimStartAt(s: string, k: nat)
    requires k <= |s| && AllSpace(s[..k]) && (k == |s| || !IsSpace(s[k]))
    ensures TrimStart(s) == s[k..]
  {
    var r := TrimStart(s);
    var m := |s| - |r|;
    assert m == |s| || !IsSpace(s[m]) by {
      if r != [] { assert r[0] == s[m]; }
    }
    BlanksBefore(s, m);
    BlanksBefore(s, k);
    if m < k {
      assert false;
    } else if k < m {
      assert false;
    }
  }

  /** `TrimEnd` cuts exactly the blanks after the last other character. */
  lemma TrimEndAt(s: string, k: nat)
    requires k <= |s| && AllSpace(s[k..]) && (k == 0 || !IsSpace(s[k - 1]))
    ensures TrimEnd(s) == s[..k]
  {
    var r := TrimEnd(s);
    var m := |r|;
    assert m == 0 || !IsSpace(s[m - 1]) by {
      if r != [] { assert r[m - 1] == s[m - 1]; }
    }
    BlanksFrom(s, m);
    BlanksFrom(s, k);
    if m < k {
      assert false;
    } else if k < m {
      assert false;
    }
  }

  lemma {:induction false} TrimStartEmptyIffAllSpace(s: string)
    ensures TrimStart(s) == [] <==> AllSpace(s)
  {
    if s == [] {
    } else if !IsSpace(s[0]) {
      assert !AllSpace(s);
    } else {
      var t := s[1..];
      TrimStartEmptyIffAllSpace(t);
      AllSpaceCons(s[0], t);
      assert s == [s[0]] + t;
    }
  }

  /** A blank followed by a text is all blanks exactly when the text is. */
  lemma AllSpaceCons(c: char, t: string)
    requires IsSpace(c)
    ensures AllSpace([c] + t) <==> AllSpace(t)
  {
    var s := [c] + t;
    if AllSpace(t) {
      forall i | 0 <= i < |s| ensures IsSpace(s[i]) {
        if i > 0 { assert s[i] == t[i - 1]; }
      }
    }
    if AllSpace(s) {
      forall i | 0 <= i < |t| ensures IsSpace(t[i]) { assert t[i] == s[i + 1]; }
    }
  }

  lemma TrimEmptyIffAllSpace(s: string)
    ensures Trim(s) == [] <==> AllSpace(s)
  {
    TrimStartEmptyIffAllSpace(s);
  }

  /** A blank at the start is cut. */
  lemma TrimBlankHead(s: string)
    requires s != [] && IsSpace(s[0])
    ensures Trim(s) == Trim(s[1..])
  {
    assert TrimStart(s) == TrimStart(s[1..]);
  }

  /** After a character that is not a blank, a blank at the end is cut. */
  lemma TrimBlankTail(s: string)
    requires s != [] && !IsSpace(s[0]) && IsSpace(s[|s| - 1])
    ensures Trim(s) == Trim(s[..|s| - 1])
  {
    var t := s[..|s| - 1];
    assert TrimStart(s) == s;
    assert TrimStart(t) == t by {
      if t != [] { assert t[0] == s[0]; }
    }
    assert TrimEnd(s) == TrimEnd(t);
  }

  /** A text with no blank at either end is its own trim. */
  lemma TrimSolid(s: string)
    requires s == [] || (!IsSpace(s[0]) && !IsSpace(s[|s| - 1]))
    ensures Trim(s) == s
  {
    assert TrimStart(s) == s;
    assert TrimEnd(s) == s;
  }

  /** Trimming twice is trimming once. */
  lemma TrimIdempotent(s: string)
    ensures Trim(Trim(s)) == Trim(s)
  {
    var r := Trim(s);
    if r != [] {
      assert TrimStart(r) == r;
      assert TrimEnd(r) == r;
    }
  }

  // ---------------------------------------------------------------------
  // searching

  /** `t` occurs in `s` at position `k`. */
  predicate OccursAt(s: string, t: string, k: int) {
    0 <= k && k + |t| <= |s| && s[k..k + |t|] == t
  }

  function IndexFrom(s: string, t: string, k: nat): (r: int)
    requires k <= |s|
    ensures r == -1 || (k <= r && OccursAt(s, t, r))
    ensures forall j | k <= j && (r == -1 || j < r) :: !OccursAt(s, t, j)
    decreases |s| - k
  {
    if OccursAt(s, t, k) then k
    else if k + |t| >= |s| then
      assert forall j | k < j :: !OccursAt(s, t, j);
      -1
    else IndexFrom(s, t, k + 1)
  }

  /** `s.indexOf(t)`: the first position where `t` occurs, or -1. */
  function IndexOf(s: string, t: string): (r: int)
    ensures r == -1 || OccursAt(s, t, r)
    ensures forall j | 0 <= j && (r == -1 || j < r) :: !OccursAt(s, t, j)
  {
    IndexFrom(s, t, 0)
  }

  function LastIndexBelow(s: string, t: string, k: int): (r: int)
    requires k <= |s|
    ensures r == -1 || (0 <= r <= k && OccursAt(s, t, r))
    ensures forall j | r < j <= k :: !OccursAt(s, t, j)
    decreases k + 1
  {
    if k < 0 then -1
    else if OccursAt(s, t, k) then k
    else LastIndexBelow(s, t, k - 1)
  }

  /** `s.lastIndexOf(t)`: the last position where `t` occurs, or -1. */
  function LastIndexOf(s: string, t: string): (r: int)
    ensures r == -1 || OccursAt(s, t, r)
    ensures forall j | r < j :: !OccursAt(s, t, j)
  {
    LastIndexBelow(s, t, |s|)
  }

  /** `s.includes(t)`. */
  predicate Includes(s: string, t: string) { IndexOf(s, t) >= 0 }

  lemma IncludesIff(s: string, t: string)
    ensures Includes(s, t) <==> exists k :: OccursAt(s, t, k)
  {
  }

  predicate StartsWith(s: string, t: string) { |t| <= |s| && s[..|t|] == t }

  predicate EndsWith(s: string, t: string) { |t| <= |s| && s[|s| - |t|..] == t }

  // ---------------------------------------------------------------------
  // substring

  function Clamp(k: int, n: nat): (r: nat)
    ensures r <= n
    ensures 0 <= k <= n ==> r == k
  {
    if k < 0 then 0 else if k > n then n else k
  }

  /** `s.substring(a, b)`: both ends clamped to the string, swapped when
      out of order. */
  function Substring(s: string, a: int, b: int): (r: string)
    ensures |r| <= |s|
    ensures 0 <= a <= b <= |s| ==> r == s[a..b]
  {
    var x, y := Clamp(a, |s|), Clamp(b, |s|);
    if x <= y then s[x..y] else s[y..x]
  }

  /** `s.substring(a)`. */
  function SubstringFrom(s: string, a: int): (r: string)
    ensures r == s[Clamp(a, |s|)..]
  {
    Substring(s, a, |s|)
  }

  // ---------------------------------------------------------------------
  // split and join

  /** `parts.join(sep)`. */
  function Join(parts: seq<string>, sep: string): (r: string)
    ensures parts == [] ==> r == []
    ensures |parts| == 1 ==> r == parts[0]
  {
    if parts == [] then []
    else if |parts| == 1 then parts[0]
    else parts[0] + sep + Join(parts[1..], sep)
  }

  /** `s.split(sep)` for a non-empty separator. */
  function SplitOn(s: string, sep: string): (r: seq<string>)
    requires sep != []
    ensures |r| >= 1
    decreases |s|
  {
    var i := IndexOf(s, sep);
    if i < 0 then [s] else [s[..i]] + SplitOn(s[i + |sep|..], sep)
  }

  /** `s.split('')`: one part per character. */
  function Chars(s: string): (r: seq<string>)
    ensures |r| == |s|
    ensures forall k | 0 <= k < |s| :: r[k] == [s[k]]
  {
    seq(|s|, k requires 0 <= k < |s| => [s[k]])
  }

  /** `s.split(sep)`: one part per character for the empty separator;
      otherwise at least one part, none holding the separator. */
  function Split(s: string, sep: string): (r: seq<string>)
    ensures sep == [] ==> |r| == |s| && forall k | 0 <= k < |s| :: r[k] == [s[k]]
    ensures sep != [] ==> |r| >= 1 && forall k | 0 <= k < |r| :: !Includes(r[k], sep)
  {
    if sep == [] then Chars(s)
    else
      SplitOnPartsFree(s, sep);
      SplitOn(s, sep)
  }

  lemma JoinCons(a: string, tail: seq<string>, sep: string)
    requires |tail| >= 1
    ensures Join([a] + tail, sep) == a + sep + Join(tail, sep)
  {
    assert ([a] + tail)[1..] == tail;
  }

  lemma SplitAround(s: string, t: string, i: nat)
    requires OccursAt(s, t, i)
    ensures s == s[..i] + t + s[i + |t|..]
  {
    assert s == s[..i] + s[i..i + |t|] + s[i + |t|..];
  }

  lemma {:induction false} SplitOnJoin(s: string, sep: string)
    requires sep != []
    ensures Join(SplitOn(s, sep), sep) == s
    decreases |s|
  {
    var i := IndexOf(s, sep);
    if i >= 0 {
      var rest := s[i + |sep|..];
      SplitOnJoin(rest, sep);
      JoinCons(s[..i], SplitOn(rest, sep), sep);
      SplitAround(s, sep, i);
    }
  }

  /** A prefix of `s` that ends before the first occurrence of `t` does not contain `t`. */
  lemma PrefixBeforeFirst(s: string, t: string, i: nat)
    requires i <= |s|
    requires forall j | 0 <= j < i :: !OccursAt(s, t, j)
    requires t != []
    ensures !Includes(s[..i], t)
  {
    var p := s[..i];
    forall j | 0 <= j ensures !OccursAt(p, t, j) {
      if OccursAt(p, t, j) {
        assert p[j..j + |t|] == s[j..j + |t|];
        assert OccursAt(s, t, j);
      }
    }
  }

  /** No part of `s.split(sep)` contains the separator. */
  lemma {:induction false} SplitOnPartsFree(s: string, sep: string)
    requires sep != []
    ensures forall k | 0 <= k < |SplitOn(s, sep)| :: !Includes(SplitOn(s, sep)[k], sep)
    decreases |s|
  {
    var i := IndexOf(s, sep);
    if i < 0 {
      PrefixBeforeFirst(s, sep, |s|);
      assert s[..|s|] == s;
    } else {
      SplitOnPartsFree(s[i + |sep|..], sep);
      PrefixBeforeFirst(s, sep, i);
    }
  }

  /** The separator is found right after a prefix that lacks its first character. */
  lemma FreePrefixIndex(p: string, sep: string, rest: string)
    requires sep != [] && sep[0] !in p
    ensures IndexOf(p + sep + rest, sep) == |p|
  {
    var s := p + sep + rest;
    assert s[|p|..|p| + |sep|] == sep;
    assert OccursAt(s, sep, |p|);
    forall j | 0 <= j < |p| ensures !OccursAt(s, sep, j) {
      assert s[j] == p[j];
    }
  }

  lemma NoHeadNoOccurrence(s: string, sep: string)
    requires sep != [] && sep[0] !in s
    ensures IndexOf(s, sep) == -1
  {
  }

  /** Joining parts that lack the separator's first character and splitting
      again gives the parts back. */
  lemma {:induction false} SplitOnOfJoin(parts: seq<string>, sep: string)
    requires sep != [] && |parts| >= 1
    requires forall k | 0 <= k < |parts| :: sep[0] !in parts[k]
    ensures SplitOn(Join(parts, sep), sep) == parts
    decreases |parts|
  {
    if |parts| == 1 {
      NoHeadNoOccurrence(parts[0], sep);
    } else {
      var rest := Join(parts[1..], sep);
      JoinCons(parts[0], parts[1..], sep);
      assert [parts[0]] + parts[1..] == parts;
      FreePrefixIndex(parts[0], sep, rest);
      var s := parts[0] + sep + rest;
      assert s[..|parts[0]|] == parts[0];
      assert s[|parts[0]| + |sep|..] == rest;
      SplitOnOfJoin(parts[1..], sep);
    }
  }

  lemma CharsJoin(s: string)
    ensures Join(Chars(s), []) == s
    decreases |s|
  {
    if |s| > 1 {
      CharsJoin(s[1..]);
      assert Chars(s)[1..] == Chars(s[1..]);
    }
  }

  /** `s.split(sep).join(sep)` gives back `s`, whatever the separator. */
  lemma SplitJoin(s: string, sep: string)
    ensures sep != [] ==> Join(Split(s, sep), sep) == s
    ensures sep == [] ==> Join(Split(s, sep), sep) == s
  {
    if sep == [] { CharsJoin(s); } else { SplitOnJoin(s, sep); }
  }

  /** `s.split(sep).join(rep)`: every occurrence replaced, left to right.
      Text without the separator, and a separator replaced by itself,
      leave the text as it is. */
  function ReplaceAll(s: string, sep: string, rep: string): (r: string)
    ensures sep != [] && !Includes(s, sep) ==> r == s
    ensures rep == sep ==> r == s
  {
    SplitJoin(s, sep);
    Join(Split(s, sep), rep)
  }

  /** The first occurrence is replaced, and the search goes on after it. */
  lemma ReplaceFirst(s: string, sep: string, rep: string)
    requires sep != [] && IndexOf(s, sep) >= 0
    ensures var i := IndexOf(s, sep);
      ReplaceAll(s, sep, rep) == s[..i] + rep + ReplaceAll(s[i + |sep|..], sep, rep)
  {
    var i := IndexOf(s, sep);
    JoinCons(s[..i], SplitOn(s[i + |sep|..], sep), rep);
  }

  /** With the empty separator, the replacement goes between every two
      characters. */
  lemma ReplaceBetweenChars(s: string, rep: string)
    requires |s| >= 2
    ensures ReplaceAll(s, [], rep) == [s[0]] + rep + ReplaceAll(s[1..], [], rep)
  {
    assert Chars(s) == [[s[0]]] + Chars(s[1..]);
    JoinCons([s[0]], Chars(s[1..]), rep);
  }

  /** Parts that lack the separator's first character, joined by the
      separator, come out joined by the replacement. */
  lemma ReplaceOfJoin(parts: seq<string>, sep: string, rep: string)
    requires sep != [] && |parts| >= 1
    requires forall k | 0 <= k < |parts| :: sep[0] !in parts[k]
    ensures ReplaceAll(Join(parts, sep), sep, rep) == Join(parts, rep)
  {
    SplitOnOfJoin(parts, sep);
  }

  lemma CharAt(s: string, c: char, k: int)
    ensures OccursAt(s, [c], k) <==> 0 <= k < |s| && s[k] == c
  {
    if 0 <= k < |s| { assert s[k..k + 1] == [s[k]]; }
  }

  /** Replacing one character by another changes exactly that character,
      wherever it occurs, and nothing else. */
  lemma {:induction false} ReplaceChar(s: string, c: char, d: char)
    ensures |ReplaceAll(s, [c], [d])| == |s|
    ensures forall k | 0 <= k < |s| :: ReplaceAll(s, [c], [d])[k] == if s[k] == c then d else s[k]
    decreases |s|
  {
    var i := IndexOf(s, [c]);
    if i < 0 {
      forall k | 0 <= k < |s| ensures s[k] != c { CharAt(s, c, k); }
    } else {
      CharAt(s, c, i);
      forall k | 0 <= k < i ensures s[k] != c { CharAt(s, c, k); }
      var rest := s[i + 1..];
      ReplaceChar(rest, c, d);
      ReplaceFirst(s, [c], [d]);
      SubstitutedAround(s, i, c, d, ReplaceAll(rest, [c], [d]));
    }
  }

  /** The first `c` made a `d`, with what follows it already
      substituted, is the whole text substituted. */
  lemma SubstitutedAround(s: string, i: nat, c: char, d: char, t: string)
    requires i < |s| && s[i] == c && forall k | 0 <= k < i :: s[k] != c
    requires |t| == |s[i + 1..]|
    requires forall k | 0 <= k < |t| :: t[k] == if s[i + 1..][k] == c then d else s[i + 1..][k]
    ensures var r := s[..i] + [d] + t;
      |r| == |s| && forall k | 0 <= k < |s| :: r[k] == if s[k] == c then d else s[k]
  {
    var r := s[..i] + [d] + t;
    forall k | 0 <= k < |s| ensures r[k] == if s[k] == c then d else s[k] {
      if k > i { assert s[k] == s[i + 1..][k - i - 1] && r[k] == t[k - i - 1]; }
    }
  }

  // ---------------------------------------------------------------------
  // case mapping (ASCII letters only)

  function LowerChar(c: char): char {
    if 'A' <= c <= 'Z' then (c as int + 32) as char else c
  }

  function UpperChar(c: char): char {
    if 'a' <= c <= 'z' then (c as int - 32) as char else c
  }

  function ToLower(s: string): (r: string)
    ensures |r| == |s| && forall k | 0 <= k < |s| :: r[k] == LowerChar(s[k])
  {
    seq(|s|, k requires 0 <= k < |s| => LowerChar(s[k]))
  }

  function ToUpper(s: string): (r: string)
    ensures |r| == |s| && forall k | 0 <= k < |s| :: r[k] == UpperChar(s[k])
  {
    seq(|s|, k requires 0 <= k < |s| => UpperChar(s[k]))
  }

  // ---------------------------------------------------------------------
  // filtering characters

  /** The characters of `s` that satisfy `keep`, in order. */
  function FilterChars(s: string, keep: char -> bool): (r: string)
    ensures |r| <= |s|
    ensures forall c :: c in r <==> c in s && keep(c)
  {
    if s == [] then []
    else (if keep(s[0]) then [s[0]] else []) + FilterChars(s[1..], keep)
  }

  /** Text whose every character passes is kept whole. */
  lemma {:induction false} FilterKeepsAll(s: string, keep: char -> bool)
    ensures (forall k | 0 <= k < |s| :: keep(s[k])) ==> FilterChars(s, keep) == s
    decreases |s|
  {
    if s != [] && forall k | 0 <= k < |s| :: keep(s[k]) {
      assert forall k | 0 <= k < |s| - 1 :: s[1..][k] == s[k + 1];
      FilterKeepsAll(s[1..], keep);
      assert s == [s[0]] + s[1..];
    }
  }

  // ---------------------------------------------------------------------
  // decimal numbers

  function DigitValue(c: char): nat
    requires IsDigit(c)
  {
    c as int - '0' as int
  }

  function DigitChar(d: nat): (c: char)
    requires d < 10
    ensures IsDigit(c) && DigitValue(c) == d
  {
    ('0' as int + d) as char
  }

  predicate AllDigits(s: string) { forall k | 0 <= k < |s| :: IsDigit(s[k]) }

  /** The value of a run of decimal digits. */
  function DigitsValue(s: string): nat
    requires AllDigits(s)
  {
    if s == [] then 0 else 10 * DigitsValue(s[..|s| - 1]) + DigitValue(s[|s| - 1])
  }

  /** The decimal digits of `n`, without leading zeros. */
  function NatDigits(n: nat): (r: string)
    ensures r != [] && AllDigits(r)
    ensures |r| > 1 ==> r[0] != '0'
    decreases n
  {
    if n < 10 then [DigitChar(n)] else NatDigits(n / 10) + [DigitChar(n % 10)]
  }

  /** `String(n)` for an integer `n`. */
  function DecimalString(n: int): (r: string)
    ensures r != []
    ensures n < 0 <==> r[0] == '-'
    ensures var a := if n < 0 then 1 else 0;
      a < |r| && AllDigits(r[a..]) && DigitsValue(r[a..]) == (if n < 0 then -n else n)
  {
    NatDigitsValue(if n < 0 then -n else n);
    if n < 0 then
      var d := NatDigits(-n);
      assert ("-" + d)[1..] == d;
      "-" + d
    else
      var d := NatDigits(n);
      assert d[0..] == d;
      d
  }

  lemma {:induction false} NatDigitsValue(n: nat)
    ensures DigitsValue(NatDigits(n)) == n
    decreases n
  {
    if n >= 10 {
      NatDigitsValue(n / 10);
      var d := NatDigits(n / 10) + [DigitChar(n % 10)];
      assert d[..|d| - 1] == NatDigits(n / 10);
    }
  }

  /** Joining three texts does not depend on the grouping. */
  lemma Regroup(a: string, b: string, c: string)
    ensures a + b + c == a + (b + c)
  {
  }
}
