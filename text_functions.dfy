/** The string built-ins of the evaluator, on the strings their arguments
    stringify to: cutting at a marker, `PARSE`, whitespace handling,
    `REMOVECHARS` and the character filters. */
module TextFunctions {
  import opened JsString

  // ---------------------------------------------------------------------
  // cutting at a marker: LEFTOF, RIGHTOF, LEFTOFLAST, RIGHTOFLAST, PARSE

  /** `LEFTOF`: the text before the first `search`, all of it when there
      is none. */
  function LeftOf(search: string, str: string): (r: string)
    ensures IndexOf(str, search) < 0 ==> r == str
    ensures IndexOf(str, search) >= 0 ==> StartsWith(str, r) && OccursAt(str, search, |r|)
    ensures IndexOf(str, search) >= 0 && search != [] ==> !Includes(r, search)
    ensures IndexOf(str, search) >= 0 ==> |r| == IndexOf(str, search)
    ensures forall j | 0 <= j < |r| :: !OccursAt(str, search, j)
  {
    var idx := IndexOf(str, search);
    if idx >= 0 then
      if search != [] then
        PrefixBeforeFirst(str, search, idx);
        Substring(str, 0, idx)
      else Substring(str, 0, idx)
    else str
  }

  /** `RIGHTOF`: the text after the first `search`, "" when there is none. */
  function RightOf(search: string, str: string): (r: string)
    ensures IndexOf(str, search) < 0 ==> r == []
    ensures IndexOf(str, search) >= 0 ==> EndsWith(str, r)
    ensures IndexOf(str, search) >= 0 ==> |r| == |str| - IndexOf(str, search) - |search|
  {
    var idx := IndexOf(str, search);
    if idx >= 0 then SubstringFrom(str, idx + |search|) else []
  }

  /** `LEFTOFLAST`: the text before the last `search`, all of it when
      there is none. */
  function LeftOfLast(search: string, str: string): (r: string)
    ensures LastIndexOf(str, search) < 0 ==> r == str
    ensures LastIndexOf(str, search) >= 0 ==> StartsWith(str, r) && OccursAt(str, search, |r|)
    ensures LastIndexOf(str, search) >= 0 ==> |r| == LastIndexOf(str, search)
    ensures LastIndexOf(str, search) >= 0 ==> forall j | |r| < j :: !OccursAt(str, search, j)
  {
    var idx := LastIndexOf(str, search);
    if idx >= 0 then Substring(str, 0, idx) else str
  }

  /** `RIGHTOFLAST`: the text after the last `search`, "" when there is
      none. */
  function RightOfLast(search: string, str: string): (r: string)
    ensures LastIndexOf(str, search) < 0 ==> r == []
    ensures LastIndexOf(str, search) >= 0 ==> EndsWith(str, r)
    ensures LastIndexOf(str, search) >= 0 ==> |r| == |str| - LastIndexOf(str, search) - |search|
  {
    var idx := LastIndexOf(str, search);
    if idx >= 0 then SubstringFrom(str, idx + |search|) else []
  }

  /** Where the marker occurs, the text is the part left of it, the
      marker and the part right of it; where it does not, LEFTOF keeps
      the whole text and RIGHTOF gives "". */
  lemma MarkerSplit(search: string, str: string)
    ensures Includes(str, search) ==> LeftOf(search, str) + search + RightOf(search, str) == str
    ensures !Includes(str, search) ==> LeftOf(search, str) == str && RightOf(search, str) == []
  {
    var idx := IndexOf(str, search);
    if idx >= 0 {
      SplitAround(str, search, idx);
    }
  }

  /** The same for the last occurrence, and nothing right of it holds the
      marker again. */
  lemma LastMarkerSplit(search: string, str: string)
    ensures LastIndexOf(str, search) >= 0 ==>
      LeftOfLast(search, str) + search + RightOfLast(search, str) == str
    ensures LastIndexOf(str, search) >= 0 && search != [] ==>
      !Includes(RightOfLast(search, str), search)
    ensures LastIndexOf(str, search) < 0 ==>
      LeftOfLast(search, str) == str && RightOfLast(search, str) == []
  {
    var idx := LastIndexOf(str, search);
    if idx >= 0 {
      SplitAround(str, search, idx);
      if search != [] {
        var right := str[idx + |search|..];
        forall j | 0 <= j ensures !OccursAt(right, search, j) {
          if j + |search| <= |right| {
            assert right[j..j + |search|] == str[idx + |search| + j..idx + |search| + j + |search|];
            assert !OccursAt(str, search, idx + |search| + j);
          }
        }
      }
    }
  }

  /** `PARSE`: the text between the first `left` and the next `right`
      after it; all the rest when `right` does not follow, "" when `left`
      does not occur. */
  function ParseBetween(left: string, right: string, str: string): (r: string)
    ensures !Includes(str, left) ==> r == []
  {
    var leftIdx := IndexOf(str, left);
    if leftIdx < 0 then []
    else
      var afterLeft := SubstringFrom(str, leftIdx + |left|);
      var rightIdx := IndexOf(afterLeft, right);
      if rightIdx >= 0 then Substring(afterLeft, 0, rightIdx) else afterLeft
  }

  /** `PARSE` is `RIGHTOF` by the left marker, then `LEFTOF` by the right
      one. */
  lemma ParseIsCutTwice(left: string, right: string, str: string)
    ensures ParseBetween(left, right, str) == LeftOf(right, RightOf(left, str))
  {
    if !Includes(str, left) {
      assert RightOf(left, str) == [];
      if right == [] {
        assert OccursAt([], right, 0);
      }
    }
  }

  // ---------------------------------------------------------------------
  // whitespace: TRIM, REMOVESPACES

  function NotSpace(c: char): bool { !IsSpace(c) }

  /** The text after the run of blanks at its start. */
  function DropSpaces(s: string): (r: string)
    ensures |r| <= |s| && r == s[|s| - |r|..]
    ensures AllSpace(s[..|s| - |r|])
    ensures r == [] || !IsSpace(r[0])
  {
    TrimStart(s)
  }

  /** `.replace(/\s+/g, ' ')`: every run of blanks becomes one space. */
  function CollapseSpaces(s: string): (r: string)
    ensures forall k | 0 <= k < |r| :: IsSpace(r[k]) ==> r[k] == ' '
    ensures forall k | 0 <= k < |r| - 1 :: !(IsSpace(r[k]) && IsSpace(r[k + 1]))
    ensures s != [] && IsSpace(s[0]) <==> r != [] && IsSpace(r[0])
    ensures s != [] && IsSpace(s[|s| - 1]) <==> r != [] && IsSpace(r[|r| - 1])
    ensures s == [] <==> r == []
    decreases |s|
  {
    if s == [] then []
    else if IsSpace(s[0]) then
      var rest := DropSpaces(s);
      var tail := CollapseSpaces(rest);
      if rest == [] then [' '] else
        assert tail != [] && !IsSpace(tail[0]);
        [' '] + tail
    else
      var tail := CollapseSpaces(s[1..]);
      [s[0]] + tail
  }

  /** Text without blanks has nothing to collapse. */
  lemma {:induction false} CollapseOfWord(s: string)
    requires forall k | 0 <= k < |s| :: !IsSpace(s[k])
    ensures CollapseSpaces(s) == s
    decreases |s|
  {
    if s != [] {
      CollapseOfWord(s[1..]);
      assert [s[0]] + s[1..] == s;
    }
  }

  /** A run of blanks between a text that does not end in a blank and a
      text that does not start with one becomes a single space; with
      CollapseOfWord this fixes `CollapseSpaces` on every input. */
  lemma {:induction false} CollapseSplit(a: string, w: string, b: string)
    requires w != [] && AllSpace(w)
    requires a == [] || !IsSpace(a[|a| - 1])
    requires b == [] || !IsSpace(b[0])
    ensures CollapseSpaces(a + w + b) == CollapseSpaces(a) + " " + CollapseSpaces(b)
    decreases |a|
  {
    if a == [] {
      CollapseEmptyHead(a, w, b);
    } else if !IsSpace(a[0]) {
      CollapseSplit(a[1..], w, b);
      CollapseWordHead(a, w, b);
    } else {
      var a' := TrimStart(a);
      TrimStartAppend(a, []);
      CollapseSplit(a', w, b);
      CollapseBlankHead(a, w, b);
    }
  }

  /** The step of CollapseSplit for a text that starts with another
      character: it is kept. */
  lemma CollapseWordHead(a: string, w: string, b: string)
    requires a != [] && !IsSpace(a[0])
    requires CollapseSpaces(a[1..] + w + b) == CollapseSpaces(a[1..]) + " " + CollapseSpaces(b)
    ensures CollapseSpaces(a + w + b) == CollapseSpaces(a) + " " + CollapseSpaces(b)
  {
    var s := a + w + b;
    Regroup(a, w, b);
    Regroup(a[1..], w, b);
    TailOfJoin(a, w + b);
    CollapseWordStep(s);
    CollapseWordStep(a);
    ConsRegroup([a[0]], CollapseSpaces(a[1..]), " ", CollapseSpaces(b),
      CollapseSpaces(a), CollapseSpaces(s[1..]), CollapseSpaces(s));
  }

  /** The step of CollapseSplit for a text that starts with blanks: they
      become one space, and so do the blanks after the rest of it. */
  lemma CollapseBlankHead(a: string, w: string, b: string)
    requires a != [] && IsSpace(a[0]) && !IsSpace(a[|a| - 1])
    requires CollapseSpaces(TrimStart(a) + w + b) == CollapseSpaces(TrimStart(a)) + " " + CollapseSpaces(b)
    ensures CollapseSpaces(a + w + b) == CollapseSpaces(a) + " " + CollapseSpaces(b)
  {
    var a' := TrimStart(a);
    var s := a + w + b;
    TrimStartAppend(a, w + b);
    Regroup(a, w, b);
    Regroup(a', w, b);
    CollapseBlankStep(s);
    CollapseBlankStep(a);
    ConsRegroup([' '], CollapseSpaces(a'), " ", CollapseSpaces(b),
      CollapseSpaces(a), CollapseSpaces(TrimStart(s)), CollapseSpaces(s));
  }

  lemma TailOfJoin(a: string, x: string)
    requires a != []
    ensures (a + x)[0] == a[0] && (a + x)[1..] == a[1..] + x
  {
  }

  /** Regrouping a head, a text and two more pieces. */
  lemma ConsRegroup(h: string, p: string, m: string, q: string, hp: string, t: string, r: string)
    requires r == h + t && t == p + m + q && hp == h + p
    ensures r == hp + m + q
  {
  }

  /** The first case of CollapseSplit: blanks before a text that does
      not start with a blank become one space. */
  lemma CollapseEmptyHead(a: string, w: string, b: string)
    requires a == [] && w != [] && AllSpace(w)
    requires b == [] || !IsSpace(b[0])
    ensures CollapseSpaces(a + w + b) == CollapseSpaces(a) + " " + CollapseSpaces(b)
  {
    var s := w + b;
    assert a + w + b == s;
    assert s[..|w|] == w;
    assert |w| == |s| || s[|w|] == b[0];
    TrimStartAt(s, |w|);
    assert s[|w|..] == b;
    var cb := CollapseSpaces(b);
    if b != [] {
      CollapseBlankStep(s);
    }
    assert CollapseSpaces(s) == [' '] + cb;
    assert CollapseSpaces(a) == [];
    assert CollapseSpaces(a) + " " + cb == [' '] + cb;
  }

  lemma CollapseWordStep(s: string)
    requires s != [] && !IsSpace(s[0])
    ensures CollapseSpaces(s) == [s[0]] + CollapseSpaces(s[1..])
  {
  }

  lemma CollapseBlankStep(s: string)
    requires s != [] && IsSpace(s[0]) && TrimStart(s) != []
    ensures CollapseSpaces(s) == [' '] + CollapseSpaces(TrimStart(s))
  {
  }

  /** Blanks cut from the start of a text that ends in another character
      are cut before anything that follows it too. */
  lemma TrimStartAppend(x: string, y: string)
    requires x != [] && !IsSpace(x[|x| - 1])
    ensures TrimStart(x + y) == TrimStart(x) + y
    ensures TrimStart(x) != [] && TrimStart(x)[|TrimStart(x)| - 1] == x[|x| - 1]
    ensures !IsSpace(x[0]) ==> TrimStart(x) == x
    ensures IsSpace(x[0]) ==> |TrimStart(x)| < |x|
  {
    var t := TrimStart(x);
    var k := |x| - |t|;
    BlanksBefore(x, k);
    if t == [] {
      assert false;
    }
    var s := x + y;
    assert s[..k] == x[..k];
    assert s[k] == x[k] == t[0];
    TrimStartAt(s, k);
    assert s[k..] == x[k..] + y;
    if !IsSpace(x[0]) { TrimStartAt(x, 0); }
  }

  /** Blanks cut from the end of a text that starts with another
      character are cut after anything before it too. */
  lemma TrimEndPrepend(x: string, y: string)
    requires y != [] && !IsSpace(y[0])
    ensures TrimEnd(x + y) == x + TrimEnd(y)
    ensures TrimEnd(y) != [] && TrimEnd(y)[0] == y[0]
  {
    var t := TrimEnd(y);
    var m := |t|;
    BlanksFrom(y, m);
    if t == [] {
      assert false;
    }
    var s := x + y;
    assert s[|x| + m..] == y[m..];
    assert s[|x| + m - 1] == y[m - 1] == t[m - 1];
    TrimEndAt(s, |x| + m);
    assert s[..|x| + m] == x + y[..m];
  }

  /** Collapsing blank runs keeps every other character, in order. */
  lemma {:induction false} CollapseKeepsText(s: string)
    ensures FilterChars(CollapseSpaces(s), NotSpace) == FilterChars(s, NotSpace)
    decreases |s|
  {
    if s != [] {
      if IsSpace(s[0]) {
        var rest := DropSpaces(s);
        CollapseKeepsText(rest);
        SpacesFilterOut(s, |s| - |rest|);
      } else {
        CollapseKeepsText(s[1..]);
      }
    }
  }

  /** Leading blanks add nothing to the filtered text. */
  lemma {:induction false} SpacesFilterOut(s: string, k: nat)
    requires k <= |s| && AllSpace(s[..k])
    ensures FilterChars(s, NotSpace) == FilterChars(s[k..], NotSpace)
    decreases k
  {
    if k > 0 {
      assert IsSpace(s[..k][0]);
      assert s[1..][..k - 1] == s[1..k];
      assert AllSpace(s[1..k]) by {
        forall i | 0 <= i < k - 1 ensures IsSpace(s[1..k][i]) {
          assert s[1..k][i] == s[..k][i + 1];
        }
      }
      SpacesFilterOut(s[1..], k - 1);
      assert s[1..][k - 1..] == s[k..];
    }
  }

  /** `TRIM`: blanks cut from both ends, inner runs made single spaces. */
  function TrimText(s: string): (r: string)
    ensures r == [] || (!IsSpace(r[0]) && !IsSpace(r[|r| - 1]))
    ensures forall k | 0 <= k < |r| :: IsSpace(r[k]) ==> r[k] == ' '
    ensures forall k | 0 <= k < |r| - 1 :: !(IsSpace(r[k]) && IsSpace(r[k + 1]))
    ensures r == [] <==> AllSpace(s)
  {
    TrimEmptyIffAllSpace(s);
    CollapseSpaces(Trim(s))
  }

  /** A word with blanks around it trims to the word. */
  lemma TrimTextOfWord(p: string, x: string, q: string)
    requires AllSpace(p) && AllSpace(q)
    requires forall k | 0 <= k < |x| :: !IsSpace(x[k])
    ensures TrimText(p + x + q) == x
  {
    var s := p + x + q;
    if x == [] {
      assert AllSpace(s) by {
        forall k | 0 <= k < |s| ensures IsSpace(s[k]) {
          if k < |p| { assert s[k] == p[k]; } else { assert s[k] == q[k - |p|]; }
        }
      }
    } else {
      assert s[..|p|] == p && s[|p|] == x[0];
      TrimStartAt(s, |p|);
      var t := x + q;
      assert s[|p|..] == t;
      assert t[|x|..] == q && t[|x| - 1] == x[|x| - 1];
      TrimEndAt(t, |x|);
      assert t[..|x|] == x;
      CollapseOfWord(x);
    }
  }

  /** The blanks between two stretches of text become one space: with
      TrimTextOfWord this fixes `TRIM` on every input. */
  lemma TrimTextSplit(a: string, w: string, b: string)
    requires a != [] && !IsSpace(a[|a| - 1])
    requires w != [] && AllSpace(w)
    requires b != [] && !IsSpace(b[0])
    ensures TrimText(a + w + b) == TrimText(a) + " " + TrimText(b)
  {
    TrimOfSplit(a, w, b);
    TrimTextOfEnd(a);
    TrimTextOfStart(b);
    TrimStartAppend(a, []);
    TrimEndPrepend([], b);
    CollapseSplit(TrimStart(a), w, TrimEnd(b));
  }

  /** Trimming text with blanks in the middle cuts only its two ends. */
  lemma TrimOfSplit(a: string, w: string, b: string)
    requires a != [] && !IsSpace(a[|a| - 1])
    requires b != [] && !IsSpace(b[0])
    ensures Trim(a + w + b) == TrimStart(a) + w + TrimEnd(b)
  {
    var a' := TrimStart(a);
    TrimStartAppend(a, w + b);
    Regroup(a, w, b);
    Regroup(a', w, b);
    TrimEndPrepend(a' + w, b);
  }

  lemma TrimTextOfEnd(a: string)
    requires a != [] && !IsSpace(a[|a| - 1])
    ensures TrimText(a) == CollapseSpaces(TrimStart(a))
  {
    var a' := TrimStart(a);
    TrimStartAppend(a, []);
    TrimEndAt(a', |a'|);
    assert a'[..|a'|] == a';
  }

  lemma TrimTextOfStart(b: string)
    requires b != [] && !IsSpace(b[0])
    ensures TrimText(b) == CollapseSpaces(TrimEnd(b))
  {
    TrimStartAt(b, 0);
  }

  /** `TRIM` keeps every non-blank character, in order. */
  lemma TrimTextKeepsText(s: string)
    ensures FilterChars(TrimText(s), NotSpace) == FilterChars(s, NotSpace)
  {
    var t := TrimStart(s);
    SpacesFilterOut(s, |s| - |t|);
    var u := TrimEnd(t);
    SpacesFilterOutEnd(t, |u|);
    CollapseKeepsText(u);
  }

  lemma {:induction false} FilterAppend(a: string, b: string, keep: char -> bool)
    ensures FilterChars(a + b, keep) == FilterChars(a, keep) + FilterChars(b, keep)
    decreases |a|
  {
    if a != [] {
      FilterAppend(a[1..], b, keep);
      assert (a + b)[0] == a[0];
      assert (a + b)[1..] == a[1..] + b;
      var head := if keep(a[0]) then [a[0]] else [];
      assert head + FilterChars(a[1..], keep) + FilterChars(b, keep)
        == head + (FilterChars(a[1..], keep) + FilterChars(b, keep));
    } else {
      assert a + b == b;
    }
  }

  lemma {:induction false} AllSpaceFilteredOut(s: string)
    requires AllSpace(s)
    ensures FilterChars(s, NotSpace) == []
    decreases |s|
  {
    if s != [] {
      assert AllSpace(s[1..]) by {
        forall i | 0 <= i < |s| - 1 ensures IsSpace(s[1..][i]) { assert s[1..][i] == s[i + 1]; }
      }
      AllSpaceFilteredOut(s[1..]);
    }
  }

  /** Trailing blanks add nothing to the filtered text. */
  lemma SpacesFilterOutEnd(s: string, k: nat)
    requires k <= |s| && AllSpace(s[k..])
    ensures FilterChars(s, NotSpace) == FilterChars(s[..k], NotSpace)
  {
    assert s == s[..k] + s[k..];
    FilterAppend(s[..k], s[k..], NotSpace);
    AllSpaceFilteredOut(s[k..]);
  }

  /** `REMOVESPACES`: `.replace(/\s/g, '')`. */
  function RemoveSpaces(s: string): (r: string)
    ensures forall k | 0 <= k < |r| :: !IsSpace(r[k])
    ensures forall c :: c in r <==> c in s && !IsSpace(c)
  {
    var r := FilterChars(s, NotSpace);
    assert forall k | 0 <= k < |r| :: r[k] in r;
    r
  }

  // ---------------------------------------------------------------------
  // REMOVECHARS, REMOVESYMBOLS, NORMALIZETEXT

  /** The characters of `s` that are not in `chars`, in order. */
  function Without(s: string, chars: string): (r: string)
    ensures |r| <= |s|
  {
    if s == [] then []
    else (if s[0] in chars then [] else [s[0]]) + Without(s[1..], chars)
  }

  /** What `REMOVECHARS` leaves: exactly the characters of the text that
      are not in `chars`. */
  lemma {:induction false} WithoutChars(s: string, chars: string)
    ensures forall c :: c in Without(s, chars) <==> c in s && c !in chars
    decreases |s|
  {
    if s != [] {
      WithoutChars(s[1..], chars);
      assert s == [s[0]] + s[1..];
    }
  }

  lemma {:induction false} WithoutAppend(a: string, b: string, chars: string)
    ensures Without(a + b, chars) == Without(a, chars) + Without(b, chars)
    decreases |a|
  {
    if a == [] {
      assert a + b == b;
    } else {
      var ab := a + b;
      assert ab[0] == a[0] && ab[1..] == a[1..] + b;
      var head := if a[0] in chars then [] else [a[0]];
      assert Without(ab, chars) == head + Without(a[1..] + b, chars);
      WithoutAppend(a[1..], b, chars);
      assert Without(a, chars) == head + Without(a[1..], chars);
      assert head + (Without(a[1..], chars) + Without(b, chars))
        == head + Without(a[1..], chars) + Without(b, chars);
    }
  }

  /** Before the first occurrence of `[c]` there is no `c`. */
  lemma NoCharBefore(s: string, c: char, i: nat)
    requires i <= |s|
    requires forall j | 0 <= j < i :: !OccursAt(s, [c], j)
    ensures forall k | 0 <= k < i :: s[k] != c
  {
    forall k | 0 <= k < i ensures s[k] != c {
      assert !OccursAt(s, [c], k);
      assert s[k..k + 1] == [s[k]];
    }
  }

  /** `s.split(c).join('')` removes every `c`. */
  lemma {:induction false} SplitJoinRemoves(s: string, c: char)
    ensures Join(Split(s, [c]), "") == Without(s, [c])
    decreases |s|
  {
    var i := IndexOf(s, [c]);
    if i < 0 {
      NoCharBefore(s, c, |s|);
      WithoutNothing(s, [c]);
    } else {
      var rest := s[i + 1..];
      var prefix := s[..i];
      SplitJoinRemoves(rest, c);
      assert Split(s, [c]) == [prefix] + SplitOn(rest, [c]);
      JoinCons(prefix, SplitOn(rest, [c]), "");
      NoCharBefore(s, c, i);
      WithoutNothing(prefix, [c]);
      assert s == prefix + [c] + rest by {
        SplitAround(s, [c], i);
      }
      WithoutAppend(prefix + [c], rest, [c]);
      WithoutAppend(prefix, [c], [c]);
      assert Without([c], [c]) == [];
      assert prefix + [] == prefix;
    }
  }

  lemma {:induction false} WithoutNothing(s: string, chars: string)
    requires forall k | 0 <= k < |s| :: s[k] !in chars
    ensures Without(s, chars) == s
    decreases |s|
  {
    if s != [] { WithoutNothing(s[1..], chars); }
  }

  /** Removing one more character after some are removed. */
  lemma {:induction false} WithoutMore(s: string, chars: string, c: char)
    ensures Without(Without(s, chars), [c]) == Without(s, chars + [c])
    decreases |s|
  {
    if s != [] {
      WithoutMore(s[1..], chars, c);
      var head := if s[0] in chars then [] else [s[0]];
      WithoutAppend(head, Without(s[1..], chars), [c]);
    }
  }

  lemma RemoveOneMore(str: string, chars: string, k: nat)
    requires k < |chars|
    ensures Join(Split(Without(str, chars[..k]), [chars[k]]), "") == Without(str, chars[..k + 1])
  {
    SplitJoinRemoves(Without(str, chars[..k]), chars[k]);
    WithoutMore(str, chars[..k], chars[k]);
    assert chars[..k] + [chars[k]] == chars[..k + 1];
  }

  /** `REMOVECHARS`: each character of `chars` in turn split out of the
      text and the pieces joined again. */
  method RemoveChars(str: string, chars: string) returns (result: string)
    ensures result == Without(str, chars)
  {
    result := str;
    WithoutNothing(str, []);
    var k := 0;
    while k < |chars|
      invariant k <= |chars|
      invariant result == Without(str, chars[..k])
    {
      var c := chars[k];
      RemoveOneMore(str, chars, k);
      result := Join(Split(result, [c]), "");
      k := k + 1;
    }
    assert chars[..k] == chars;
  }

  /** `[a-zA-Z0-9\s]`, what `REMOVESYMBOLS` keeps. */
  function Plain(c: char): bool { IsAsciiLetter(c) || IsDigit(c) || IsSpace(c) }

  /** `REMOVESYMBOLS`. */
  function RemoveSymbols(s: string): (r: string)
    ensures forall k | 0 <= k < |r| :: Plain(r[k])
    ensures forall c :: c in r <==> c in s && Plain(c)
  {
    var r := FilterChars(s, Plain);
    assert forall k | 0 <= k < |r| :: r[k] in r;
    r
  }

  /** `REMOVESPACES` works piece by piece and keeps text without blanks
      as it is: the non-blank characters stay, in their order. */
  lemma RemoveSpacesLaws(a: string, b: string)
    ensures RemoveSpaces(a + b) == RemoveSpaces(a) + RemoveSpaces(b)
    ensures (forall k | 0 <= k < |a| :: !IsSpace(a[k])) ==> RemoveSpaces(a) == a
  {
    FilterAppend(a, b, NotSpace);
    FilterKeepsAll(a, NotSpace);
  }

  /** `REMOVESYMBOLS` works piece by piece and keeps letters, digits and
      blanks as they are, in their order. */
  lemma RemoveSymbolsLaws(a: string, b: string)
    ensures RemoveSymbols(a + b) == RemoveSymbols(a) + RemoveSymbols(b)
    ensures (forall k | 0 <= k < |a| :: Plain(a[k])) ==> RemoveSymbols(a) == a
  {
    FilterAppend(a, b, Plain);
    FilterKeepsAll(a, Plain);
  }

  /** Where the first `>` of `s` is, or -1. */
  function CloseAngle(s: string): (r: int)
    ensures r == -1 || (0 <= r < |s| && s[r] == '>')
    ensures r == -1 <==> '>' !in s
    ensures forall j | 0 <= j < |s| && (r == -1 || j < r) :: s[j] != '>'
  {
    if s == [] then -1
    else if s[0] == '>' then 0
    else
      var k := CloseAngle(s[1..]);
      if k < 0 then -1 else k + 1
  }

  /** `.replace(/<[^>]*>/g, '')`: each `<` with a later `>` is cut out
      together with everything up to that `>`. */
  function RemoveTags(s: string): (r: string)
    ensures forall c :: c in r ==> c in s
    ensures forall i, j | 0 <= i < j < |r| :: !(r[i] == '<' && r[j] == '>')
    ensures '<' !in s ==> r == s
    ensures '>' !in s ==> r == s
    decreases |s|
  {
    if s == [] then []
    else if s[0] == '<' && CloseAngle(s[1..]) >= 0 then
      var close := CloseAngle(s[1..]) + 1;
      assert s[close] == s[1..][close - 1] == '>';
      RemoveTags(s[close + 1..])
    else
      var tail := RemoveTags(s[1..]);
      assert s[0] == '<' ==> '>' !in tail;
      assert '<' !in s ==> '<' !in s[1..] && s == [s[0]] + s[1..];
      assert '>' !in s ==> '>' !in s[1..] && s == [s[0]] + s[1..];
      var r := [s[0]] + tail;
      assert forall i, j | 0 < i < j < |r| :: r[i] == tail[i - 1] && r[j] == tail[j - 1];
      r
  }

  /** Text before the first `<` is kept as it is. */
  lemma {:induction false} TaglessPrefixKept(a: string, x: string)
    requires '<' !in a
    ensures RemoveTags(a + x) == a + RemoveTags(x)
    decreases |a|
  {
    if a == [] {
      assert a + x == x;
    } else {
      var ax := a + x;
      assert ax[0] == a[0] && ax[1..] == a[1..] + x;
      RemoveTagsStep(ax);
      TaglessPrefixKept(a[1..], x);
      Regroup([a[0]], a[1..], RemoveTags(x));
      assert [a[0]] + a[1..] == a;
    }
  }

  lemma RemoveTagsStep(s: string)
    requires s != [] && s[0] != '<'
    ensures RemoveTags(s) == [s[0]] + RemoveTags(s[1..])
  {
  }

  /** A tag `<…>` at the start is cut out whole. */
  lemma TagCutOut(t: string, b: string)
    requires '>' !in t
    ensures RemoveTags("<" + t + ">" + b) == RemoveTags(b)
  {
    var s := "<" + t + ">" + b;
    var rest := t + ">" + b;
    assert s[1..] == rest && rest[|t|] == '>';
    var k := CloseAngle(rest);
    assert k == |t|;
    assert s[|t| + 2..] == b;
  }

  /** `.replace(/<[^>]*>/g, '')` on text, a tag, and more text: the text
      before the tag stays, the tag goes, and the rest is treated alike. */
  lemma RemoveTagsAt(a: string, t: string, b: string)
    requires '<' !in a && '>' !in t
    ensures RemoveTags(a + "<" + t + ">" + b) == a + RemoveTags(b)
  {
    assert a + "<" + t + ">" + b == a + ("<" + t + ">" + b);
    TaglessPrefixKept(a, "<" + t + ">" + b);
    TagCutOut(t, b);
  }

  /** `NORMALIZETEXT`: blanks removed, then markup tags. */
  function NormalizeText(s: string): (r: string)
    ensures forall k | 0 <= k < |r| :: !IsSpace(r[k])
    ensures forall i, j | 0 <= i < j < |r| :: !(r[i] == '<' && r[j] == '>')
  {
    var t := RemoveSpaces(s);
    var r := RemoveTags(t);
    assert forall k | 0 <= k < |r| :: r[k] in t;
    r
  }

  /** Without a `<`, or without a `>`, there is no tag, and
      `NORMALIZETEXT` only removes the blanks. */
  lemma NormalizeTextOfPlain(s: string)
    requires '<' !in s || '>' !in s
    ensures NormalizeText(s) == RemoveSpaces(s)
  {
  }

  /** `NORMALIZETEXT` on text, a tag, and more text: the text before the
      tag loses its blanks, the tag goes, and the rest is treated alike. */
  lemma NormalizeTextAt(a: string, t: string, b: string)
    requires '<' !in a && '>' !in t
    ensures NormalizeText(a + "<" + t + ">" + b) == RemoveSpaces(a) + NormalizeText(b)
  {
    RemoveSpacesAround(a, t, b, '<', '>');
    RemoveTagsAt(RemoveSpaces(a), RemoveSpaces(t), RemoveSpaces(b));
  }

  lemma RemoveSpacesAround(a: string, t: string, b: string, l: char, g: char)
    requires !IsSpace(l) && !IsSpace(g)
    ensures RemoveSpaces(a + [l] + t + [g] + b) == RemoveSpaces(a) + [l] + RemoveSpaces(t) + [g] + RemoveSpaces(b)
  {
    RemoveSpacesLaws(a + [l] + t + [g], b);
    RemoveSpacesLaws(a + [l] + t, [g]);
    RemoveSpacesLaws(a + [l], t);
    RemoveSpacesLaws(a, [l]);
    RemoveSpacesLaws([l], []);
    RemoveSpacesLaws([g], []);
  }
}
