/** The editor's "format" command. A first pass drops the whitespace that
    lies outside strings and square brackets; a second pass lays the
    formula out again, opening a new line indented by one tab per open
    parenthesis after each `(`, `,` and `;`, and before a `)` that ends
    a line with content. Both passes follow quotes (a quote right after
    a backslash is escaped) and brackets. */
module Formatter {
  import opened JsString
  import opened Wrappers
  import opened EditorText

  /** `INDENT_UNIT`: one tab per level. */
  const IndentUnit: char := '\t'

  function Tabs(level: nat): (r: string)
    ensures |r| == level && forall k | 0 <= k < level :: r[k] == IndentUnit
  {
    seq(level, _ => IndentUnit)
  }

  predicate IsQuote(c: char) { c == '"' || c == '\'' }

  /** What a pass knows at each point: the bracket depth, whether it is
      inside a string and which quote opened it, and the character the
      escape test looks back at. The quote is read only inside a string,
      after it has been set. */
  datatype Scanner = Scanner(depth: nat, inString: bool, quote: char, prev: Option<char>)

  const Start: Scanner := Scanner(0, false, '"', None)

  /** Inside brackets or a string, text is kept as it is. */
  predicate Verbatim(sc: Scanner) { sc.depth > 0 || sc.inString }

  /** The scanner after `c`: an unescaped quote opens a string, or closes
      the one its own kind opened; then `[` and `]` move the depth, never
      below 0; `c` is then the character to look back at. */
  function Advance(sc: Scanner, c: char): (r: Scanner)
    ensures r.prev == Some(c)
    ensures !IsQuote(c) && c != '[' && c != ']' ==> r == sc.(prev := Some(c))
  {
    var escaped := sc.prev == Some('\\');
    var s1 :=
      if IsQuote(c) && !escaped then
        if !sc.inString then sc.(inString := true, quote := c)
        else if c == sc.quote then sc.(inString := false)
        else sc
      else sc;
    var s2 :=
      if c == '[' then s1.(depth := s1.depth + 1)
      else if c == ']' then s1.(depth := Down(s1.depth))
      else s1;
    s2.(prev := Some(c))
  }

  /** The first pass keeps `c` when it is not whitespace, or when it ends
      up inside brackets or a string. */
  predicate Keeps(sc: Scanner, c: char) { Verbatim(Advance(sc, c)) || !IsSpace(c) }

  // ---------------------------------------------------------------------
  // the first pass

  /** The first pass as the source writes it: the escape test looks at
      the character before in the input, even one the pass dropped. */
  function NormalizeWritten(s: string, sc: Scanner): (r: (string, Scanner))
    ensures |r.0| <= |s|
  {
    if s == [] then ([], sc)
    else
      var rest := NormalizeWritten(s[1..], Advance(sc, s[0]));
      ((if Keeps(sc, s[0]) then [s[0]] else []) + rest.0, rest.1)
  }

  /** The first pass as intended: the escape test looks at the character
      before in the output, the one the second pass will look at. A
      dropped character is whitespace outside strings and brackets and
      leaves the scanner as it was. */
  function Normalize(s: string, sc: Scanner): (r: (string, Scanner))
    ensures |r.0| <= |s|
  {
    if s == [] then ([], sc)
    else if Keeps(sc, s[0]) then
      var rest := Normalize(s[1..], Advance(sc, s[0]));
      ([s[0]] + rest.0, rest.1)
    else Normalize(s[1..], sc)
  }

  // ---------------------------------------------------------------------
  // the second pass

  /** Line breaks and tabs: all the second pass ever adds. */
  predicate IsLayout(w: string) { forall k | 0 <= k < |w| :: w[k] == '\n' || w[k] == '\t' }

  /** A line break followed by the indent of `level`. */
  function Break(level: nat): (w: string)
    ensures IsLayout(w) && |w| == level + 1 && w[0] == '\n'
  {
    "\n" + Tabs(level)
  }

  /** Whether the line being written holds more than whitespace. */
  predicate LineHasContent(s: string)
    decreases |s|
  {
    s != [] && s[|s| - 1] != '\n' && (!IsSpace(s[|s| - 1]) || LineHasContent(s[..|s| - 1]))
  }

  /** Whether, whitespace aside, the text ends with `(`. */
  predicate EndsOpen(s: string)
    decreases |s|
  {
    s != [] && if IsSpace(s[|s| - 1]) then EndsOpen(s[..|s| - 1]) else s[|s| - 1] == '('
  }

  /** Before a `)`, the second pass breaks the line when the current line
      holds more than whitespace and the text so far does not end, blanks
      aside, with `(` (`ClosesLineAgrees` states it in the source's own
      terms: the trimmed last line, the end-trimmed text). */
  predicate ClosesLine(result: string) {
    LineHasContent(result) && !EndsOpen(result)
  }

  /** The last line starts after the last line break and nowhere else. */
  lemma LineStartUnique(text: string, r: nat)
    requires r <= |text| && (r == 0 || text[r - 1] == '\n')
    requires forall k | r <= k < |text| :: text[k] != '\n'
    ensures LastLineStart(text) == r
  {
  }

  /** A character other than a line break extends the last line. */
  lemma LineStartExtends(a: string, c: char)
    requires c != '\n'
    ensures LastLineStart(a + [c]) == LastLineStart(a)
  {
    var s := a + [c];
    var r := LastLineStart(a);
    assert forall k | r <= k < |s| :: s[k] != '\n' by {
      forall k | r <= k < |s| ensures s[k] != '\n' {
        if k < |a| { assert s[k] == a[k]; }
      }
    }
    LineStartUnique(s, r);
  }

  lemma AllSpaceSnoc(t: string, c: char)
    ensures AllSpace(t + [c]) <==> AllSpace(t) && IsSpace(c)
  {
    var u := t + [c];
    if AllSpace(t) && IsSpace(c) {
      forall k | 0 <= k < |u| ensures IsSpace(u[k]) {
        if k < |t| { assert u[k] == t[k]; }
      }
    }
    if AllSpace(u) {
      assert u[|t|] == c;
      forall k | 0 <= k < |t| ensures IsSpace(t[k]) { assert u[k] == t[k]; }
    }
  }

  lemma {:induction false} LineHasContentSpaces(s: string)
    ensures LineHasContent(s) <==> !AllSpace(s[LastLineStart(s)..])
    decreases |s|
  {
    if s == [] {
    } else if s[|s| - 1] == '\n' {
      LineStartUnique(s, |s|);
      assert s[|s|..] == [];
    } else {
      var a := s[..|s| - 1];
      var c := s[|s| - 1];
      assert s == a + [c];
      LineHasContentSpaces(a);
      LineStartExtends(a, c);
      var r := LastLineStart(a);
      assert s[r..] == a[r..] + [c];
      AllSpaceSnoc(a[r..], c);
    }
  }

  lemma LineHasContentAgrees(s: string)
    ensures LineHasContent(s) <==> Trim(s[LastLineStart(s)..]) != []
  {
    LineHasContentSpaces(s);
    TrimEmptyIffAllSpace(s[LastLineStart(s)..]);
  }

  lemma {:induction false} EndsOpenAgrees(s: string)
    ensures EndsOpen(s) <==> EndsWith(TrimEnd(s), "(")
    decreases |s|
  {
    if s != [] {
      if IsSpace(s[|s| - 1]) {
        EndsOpenAgrees(s[..|s| - 1]);
      } else {
        assert TrimEnd(s) == s;
        assert EndsWith(s, "(") <==> s[|s| - 1] == '(' by {
          if s[|s| - 1] == '(' { assert s[|s| - 1..] == "("; }
        }
      }
    }
  }

  /** The rule as the source states it: the last line, trimmed, is not
      empty, and the text, end-trimmed, does not end with `(`. */
  predicate BreaksBeforeClose(result: string) {
    Trim(result[LastLineStart(result)..]) != [] && !EndsWith(TrimEnd(result), "(")
  }

  lemma ClosesLineAgrees(result: string)
    ensures ClosesLine(result) == BreaksBeforeClose(result)
  {
    LineHasContentAgrees(result);
    EndsOpenAgrees(result);
  }

  /** What the second pass writes around the character at `i`: the text
      before it, the text after it, and the indent level after it.
      `verbatim` says whether the character is inside a string or
      brackets, `closes` whether the line is to be broken before a `)`. */
  function LayStep(n: string, i: nat, level: nat, verbatim: bool, closes: bool): (r: (string, string, nat))
    requires i < |n|
    ensures IsLayout(r.0) && IsLayout(r.1)
    ensures r.0 != [] ==> n[i] == ')' && !verbatim
    ensures r.1 != [] ==> !verbatim && (n[i] == '(' || n[i] == ',' || n[i] == ';')
    ensures !verbatim && n[i] == ')' ==> (r.0 != [] <==> closes)
    ensures !verbatim && n[i] == '(' ==> (r.1 != [] <==> i + 1 < |n| && n[i + 1] != ')')
    ensures !verbatim && (n[i] == ',' || n[i] == ';') ==> r.1 != []
    ensures !verbatim && n[i] == '(' ==> r.2 == level + 1
    ensures !verbatim && n[i] == ')' ==> r.2 == Down(level)
    ensures verbatim || (n[i] != '(' && n[i] != ')') ==> r.2 == level
  {
    var c := n[i];
    if verbatim then ("", "", level)
    else if c == '(' then
      ("", if i + 1 < |n| && n[i + 1] != ')' then Break(level + 1) else "", level + 1)
    else if c == ')' then (if closes then Break(Down(level)) else "", "", Down(level))
    else if c == ',' || c == ';' then ("", Break(level), level)
    else ("", "", level)
  }

  /** The second pass from `i` on, having written `result`. */
  function LayFrom(n: string, i: nat, sc: Scanner, result: string, level: nat): string
    requires i <= |n|
    decreases |n| - i
  {
    if i == |n| then result
    else
      var (pre, post, level') := LayStep(n, i, level, Verbatim(Advance(sc, n[i])), ClosesLine(result));
      LayFrom(n, i + 1, Advance(sc, n[i]), result + pre + [n[i]] + post, level')
  }

  function Layout(n: string): string {
    LayFrom(n, 0, Start, [], 0)
  }

  /** `formatFormula` as written. */
  function FormatWritten(f: string): string {
    Layout(NormalizeWritten(f, Start).0)
  }

  /** `formatFormula` with the first pass corrected. */
  function Format(f: string): string {
    Layout(Normalize(f, Start).0)
  }

  // ---------------------------------------------------------------------
  // the first pass is idempotent

  /** Running the corrected first pass over its own output retraces it:
      each kept character meets the same scanner again and is kept, and
      the dropped ones, which did not move the scanner, are absent. */
  lemma {:induction false} NormalizeRetraces(s: string, sc: Scanner)
    ensures Normalize(Normalize(s, sc).0, sc) == Normalize(s, sc)
    decreases |s|
  {
    if s != [] {
      NormalizeRetraces(s[1..], if Keeps(sc, s[0]) then Advance(sc, s[0]) else sc);
      if Keeps(sc, s[0]) {
        var rest := Normalize(s[1..], Advance(sc, s[0]));
        assert ([s[0]] + rest.0)[1..] == rest.0;
      }
    }
  }

  /** Normalizing twice is normalizing once. */
  lemma NormalizeIdempotent(f: string)
    ensures Normalize(Normalize(f, Start).0, Start).0 == Normalize(f, Start).0
  {
    NormalizeRetraces(f, Start);
  }

  /** The first pass over `a + b` is the pass over `a` followed by the
      pass over `b` from where it left off. */
  lemma {:induction false} NormalizeConcat(a: string, b: string, sc: Scanner)
    ensures var ra := Normalize(a, sc);
      Normalize(a + b, sc) == (ra.0 + Normalize(b, ra.1).0, Normalize(b, ra.1).1)
    decreases |a|
  {
    if a == [] {
      assert a + b == b;
      assert [] + Normalize(b, sc).0 == Normalize(b, sc).0;
    } else {
      assert (a + b)[0] == a[0] && (a + b)[1..] == a[1..] + b;
      if Keeps(sc, a[0]) {
        var sc' := Advance(sc, a[0]);
        NormalizeConcat(a[1..], b, sc');
        var ra' := Normalize(a[1..], sc');
        var rb := Normalize(b, ra'.1);
        assert Normalize(a, sc) == ([a[0]] + ra'.0, ra'.1);
        assert Normalize(a + b, sc) == ([a[0]] + (ra'.0 + rb.0), rb.1);
        assert [a[0]] + (ra'.0 + rb.0) == ([a[0]] + ra'.0) + rb.0;
      } else {
        NormalizeConcat(a[1..], b, sc);
      }
    }
  }

  /** Whitespace neither opens a string nor moves the depth. */
  lemma SpaceMovesNothing(c: char)
    requires IsSpace(c)
    ensures !IsQuote(c) && c != '[' && c != ']'
  {
  }

  /** Line breaks and tabs outside strings and brackets are dropped and
      leave the scanner as it was. */
  lemma {:induction false} NormalizeDropsLayout(w: string, sc: Scanner)
    requires IsLayout(w) && (w != [] ==> !Verbatim(sc))
    ensures Normalize(w, sc) == ([], sc)
    decreases |w|
  {
    if w != [] {
      assert w[0] == '\n' || w[0] == '\t';
      assert !Keeps(sc, w[0]);
      NormalizeDropsLayout(w[1..], sc);
    }
  }

  // ---------------------------------------------------------------------
  // the second pass only adds layout

  /** The second pass writes only line breaks and tabs around a character,
      and only where it is outside strings and brackets: before a `)`,
      which moves nothing, and after `(`, `,` and `;`. */
  lemma LayStepLayout(n: string, i: nat, sc: Scanner, level: nat, closes: bool)
    requires i < |n|
    ensures var (pre, post, _) := LayStep(n, i, level, Verbatim(Advance(sc, n[i])), closes);
      && IsLayout(pre) && IsLayout(post)
      && (pre != [] ==> !Verbatim(sc))
      && (post != [] ==> !Verbatim(Advance(sc, n[i])))
  {
    var (pre, post, _) := LayStep(n, i, level, Verbatim(Advance(sc, n[i])), closes);
    if pre != [] {
      assert Advance(sc, n[i]) == sc.(prev := Some(n[i]));
    }
  }

  /** A text the first pass keeps whole, its first character included. */
  lemma KeptWhole(s: string, sc: Scanner)
    requires s != [] && Normalize(s, sc).0 == s
    ensures Keeps(sc, s[0]) && Normalize(s[1..], Advance(sc, s[0])).0 == s[1..]
  {
  }

  /** One step of the second pass, undone by the first: the layout around
      a kept character is dropped again. */
  lemma PieceUndone(result: string, prefix: string, sc: Scanner, pre: string, c: char, post: string)
    requires Normalize(result, Start) == (prefix, sc)
    requires IsLayout(pre) && (pre != [] ==> !Verbatim(sc))
    requires Keeps(sc, c)
    requires IsLayout(post) && (post != [] ==> !Verbatim(Advance(sc, c)))
    ensures Normalize(result + pre + [c] + post, Start) == (prefix + [c], Advance(sc, c))
  {
    var sc' := Advance(sc, c);
    NormalizeDropsLayout(pre, sc);
    NormalizeConcat(result, pre, Start);
    assert prefix + [] == prefix;
    assert Normalize(result + pre, Start) == (prefix, sc);
    assert [c][1..] == [] && [c][0] == c;
    assert Normalize([c][1..], sc') == ([], sc');
    assert [c] + [] == [c];
    assert Normalize([c], sc) == ([c], sc');
    NormalizeConcat(result + pre, [c], Start);
    assert Normalize(result + pre + [c], Start) == (prefix + [c], sc');
    NormalizeDropsLayout(post, sc');
    NormalizeConcat(result + pre + [c], post, Start);
    assert prefix + [c] + [] == prefix + [c];
  }

  /** Normalizing the laid-out text gives back what was laid out, as long
      as that was normal: the second pass adds only what the first drops. */
  lemma {:induction false} LayoutUndone(n: string, i: nat, sc: Scanner, result: string, level: nat)
    requires i <= |n|
    requires Normalize(result, Start) == (n[..i], sc)
    requires Normalize(n[i..], sc).0 == n[i..]
    ensures Normalize(LayFrom(n, i, sc, result, level), Start).0 == n
    decreases |n| - i
  {
    if i == |n| {
      assert n[..i] == n;
    } else {
      var c := n[i];
      var (pre, post, level') := LayStep(n, i, level, Verbatim(Advance(sc, n[i])), ClosesLine(result));
      var sc' := Advance(sc, c);
      LayStepLayout(n, i, sc, level, ClosesLine(result));
      assert n[i..][0] == c && n[i..][1..] == n[i + 1..];
      KeptWhole(n[i..], sc);
      PieceUndone(result, n[..i], sc, pre, c, post);
      assert n[..i] + [c] == n[..i + 1];
      LayoutUndone(n, i + 1, sc', result + pre + [c] + post, level');
    }
  }

  /** Formatting twice is formatting once, with the corrected first pass. */
  lemma FormatIdempotent(f: string)
    ensures Format(Format(f)) == Format(f)
  {
    var n := Normalize(f, Start).0;
    NormalizeIdempotent(f);
    assert n[0..] == n && n[..0] == [];
    LayoutUndone(n, 0, Start, [], 0);
  }

  /** A character the second pass copies and that moves no scanner state
      but the look-back: no quote, bracket, separator or whitespace. */
  predicate Bare(c: char) { !Structural(c) && !IsQuote(c) && c != '[' && c != ']' && !IsSpace(c) }

  predicate AllBare(s: string) { forall k | 0 <= k < |s| :: Bare(s[k]) }

  /** Outside strings and brackets, a run of bare characters is copied. */
  lemma {:induction false} BareRun(n: string, i: nat, j: nat, sc: Scanner, result: string, level: nat)
    requires i <= j <= |n| && forall k | i <= k < j :: Bare(n[k])
    requires !Verbatim(sc)
    ensures LayFrom(n, i, sc, result, level)
         == LayFrom(n, j, if j == i then sc else sc.(prev := Some(n[j - 1])), result + n[i..j], level)
    decreases j - i
  {
    if i == j {
      assert result + n[i..j] == result;
    } else {
      var sc' := Advance(sc, n[i]);
      assert sc' == sc.(prev := Some(n[i]));
      assert LayStep(n, i, level, Verbatim(Advance(sc, n[i])), ClosesLine(result)) == ("", "", level);
      assert result + "" + [n[i]] + "" == result + [n[i]];
      BareRun(n, i + 1, j, sc', result + [n[i]], level);
      assert n[i..j] == [n[i]] + n[i + 1..j];
      Regroup(result, [n[i]], n[i + 1..j]);
    }
  }

  /** After `f(x` has been laid out as `f(`, a line break, a tab and `x`,
      the `)` gets a line of its own. */
  lemma ClosesCallLine(f: string, x: string)
    requires AllBare(x) && x != []
    ensures ClosesLine(f + "(" + Break(1) + x)
  {
    var result := f + "(" + Break(1) + x;
    assert result[|result| - 1] == x[|x| - 1] && Bare(x[|x| - 1]);
  }

  /** Outside strings and brackets, a `(` that does not close at once
      opens a level and a new line. */
  lemma OpenStep(n: string, p: nat, sc: Scanner, result: string, level: nat)
    requires p + 1 < |n| && n[p] == '(' && n[p + 1] != ')' && !Verbatim(sc)
    ensures LayFrom(n, p, sc, result, level)
         == LayFrom(n, p + 1, sc.(prev := Some('(')), result + "(" + Break(level + 1), level + 1)
  {
    assert Advance(sc, '(') == sc.(prev := Some('('));
    assert LayStep(n, p, level, false, ClosesLine(result)) == ("", Break(level + 1), level + 1);
    assert result + "" + [n[p]] + Break(level + 1) == result + "(" + Break(level + 1);
  }

  /** Outside strings and brackets, a last `)` after a line with content
      goes on a line of its own, one level out. */
  lemma CloseStep(n: string, m: nat, sc: Scanner, result: string, level: nat)
    requires m + 1 == |n| && n[m] == ')' && !Verbatim(sc) && ClosesLine(result)
    ensures LayFrom(n, m, sc, result, level) == result + Break(Down(level)) + ")"
  {
    assert Advance(sc, ')') == sc.(prev := Some(')'));
    assert LayStep(n, m, level, false, true) == (Break(Down(level)), "", Down(level));
    assert result + Break(Down(level)) + [n[m]] + "" == result + Break(Down(level)) + ")";
  }

  /** A call with one bare argument is laid out over three lines: the name
      and `(`, the argument one tab in, and `)`. */
  lemma LayoutOfCall(f: string, x: string)
    requires AllBare(f) && AllBare(x) && x != []
    ensures Layout(f + "(" + x + ")") == f + "(\n\t" + x + "\n)"
  {
    var n := f + "(" + x + ")";
    var p := |f|;
    var m := p + 1 + |x|;
    assert n[..p] == f && n[p] == '(' && n[p + 1..m] == x && n[m] == ')' && |n| == m + 1;
    assert n[p + 1] == x[0] && Bare(x[0]);
    var sc1 := if p == 0 then Start else Start.(prev := Some(n[p - 1]));
    var sc2 := sc1.(prev := Some('('));
    var sc3 := sc2.(prev := Some(n[m - 1]));
    var r1 := f + "(" + Break(1);
    assert Layout(n) == LayFrom(n, p, sc1, f, 0) by {
      BareRun(n, 0, p, Start, [], 0);
      assert [] + n[0..p] == f;
    }
    assert LayFrom(n, p, sc1, f, 0) == LayFrom(n, p + 1, sc2, r1, 1) by {
      OpenStep(n, p, sc1, f, 0);
    }
    assert LayFrom(n, p + 1, sc2, r1, 1) == LayFrom(n, m, sc3, r1 + x, 1) by {
      BareRun(n, p + 1, m, sc2, r1, 1);
    }
    assert LayFrom(n, m, sc3, r1 + x, 1) == r1 + x + Break(Down(1)) + ")" by {
      ClosesCallLine(f, x);
      CloseStep(n, m, sc3, r1 + x, 1);
    }
    CallText(f, x);
  }

  lemma CallText(f: string, x: string)
    ensures f + "(" + Break(1) + x + Break(Down(1)) + ")" == f + "(\n\t" + x + "\n)"
  {
    assert Break(1) == "\n\t" && Break(Down(1)) == "\n";
    assert "(" + "\n\t" == "(\n\t" && "\n" + ")" == "\n)";
  }

  // ---------------------------------------------------------------------
  // formatting changes whitespace only

  /** The text without its whitespace. */
  function Solid(s: string): (r: string)
    ensures |r| <= |s| && forall k | 0 <= k < |r| :: !IsSpace(r[k])
  {
    if s == [] then [] else (if IsSpace(s[0]) then [] else [s[0]]) + Solid(s[1..])
  }

  lemma {:induction false} SolidConcat(a: string, b: string)
    ensures Solid(a + b) == Solid(a) + Solid(b)
    decreases |a|
  {
    if a == [] {
      assert a + b == b;
    } else {
      assert (a + b)[0] == a[0] && (a + b)[1..] == a[1..] + b;
      SolidConcat(a[1..], b);
    }
  }

  lemma {:induction false} SolidOfLayout(w: string)
    requires IsLayout(w)
    ensures Solid(w) == []
    decreases |w|
  {
    if w != [] {
      assert IsSpace(w[0]);
      SolidOfLayout(w[1..]);
    }
  }

  /** The first pass drops whitespace only. */
  lemma {:induction false} NormalizeSolid(s: string, sc: Scanner)
    ensures Solid(Normalize(s, sc).0) == Solid(s)
    decreases |s|
  {
    if s != [] {
      if Keeps(sc, s[0]) {
        var rest := Normalize(s[1..], Advance(sc, s[0]));
        NormalizeSolid(s[1..], Advance(sc, s[0]));
        assert ([s[0]] + rest.0)[0] == s[0] && ([s[0]] + rest.0)[1..] == rest.0;
      } else {
        NormalizeSolid(s[1..], sc);
      }
    }
  }

  lemma PieceSolid(result: string, pre: string, c: char, post: string)
    requires IsLayout(pre) && IsLayout(post)
    ensures Solid(result + pre + [c] + post) == Solid(result) + Solid([c])
  {
    SolidOfLayout(pre);
    SolidOfLayout(post);
    SolidConcat(result, pre);
    SolidConcat(result + pre, [c]);
    SolidConcat(result + pre + [c], post);
    assert Solid(result) + [] == Solid(result);
    assert Solid(result) + Solid([c]) + [] == Solid(result) + Solid([c]);
  }

  lemma PieceRestSolid(result: string, pre: string, c: char, post: string, rest: string)
    requires IsLayout(pre) && IsLayout(post)
    ensures Solid(result + pre + [c] + post + rest) == Solid(result + ([c] + rest))
  {
    var piece := result + pre + [c] + post;
    PieceSolid(result, pre, c, post);
    SolidConcat(piece, rest);
    SolidConcat([c], rest);
    SolidConcat(result, [c] + rest);
    Regroup(Solid(result), Solid([c]), Solid(rest));
  }

  /** The second pass adds whitespace only. */
  lemma {:induction false} LayoutSolid(n: string, i: nat, sc: Scanner, result: string, level: nat)
    requires i <= |n|
    ensures Solid(LayFrom(n, i, sc, result, level)) == Solid(result + n[i..])
    decreases |n| - i
  {
    if i == |n| {
      assert result + n[i..] == result;
    } else {
      var c := n[i];
      var step := LayStep(n, i, level, Verbatim(Advance(sc, n[i])), ClosesLine(result));
      LayoutSolid(n, i + 1, Advance(sc, c), result + step.0 + [c] + step.1, step.2);
      PieceRestSolid(result, step.0, c, step.1, n[i + 1..]);
      assert [c] + n[i + 1..] == n[i..];
    }
  }

  /** Formatting changes nothing but whitespace outside strings and
      brackets: the text without its whitespace stays as it was. */
  lemma FormatKeepsText(f: string)
    ensures Solid(Format(f)) == Solid(f)
  {
    var n := Normalize(f, Start).0;
    NormalizeSolid(f, Start);
    LayoutSolid(n, 0, Start, [], 0);
    assert [] + n[0..] == n;
  }

  /** The first pass as written drops whitespace only, too. */
  lemma {:induction false} NormalizeWrittenSolid(s: string, sc: Scanner)
    ensures Solid(NormalizeWritten(s, sc).0) == Solid(s)
    decreases |s|
  {
    if s != [] {
      var rest := NormalizeWritten(s[1..], Advance(sc, s[0]));
      NormalizeWrittenSolid(s[1..], Advance(sc, s[0]));
      if Keeps(sc, s[0]) {
        assert ([s[0]] + rest.0)[0] == s[0] && ([s[0]] + rest.0)[1..] == rest.0;
      } else {
        assert [] + rest.0 == rest.0;
      }
    }
  }

  /** `formatFormula` as written keeps every non-blank character, in
      order, although it is not idempotent. */
  lemma FormatWrittenKeepsText(f: string)
    ensures Solid(FormatWritten(f)) == Solid(f)
  {
    var n := NormalizeWritten(f, Start).0;
    NormalizeWrittenSolid(f, Start);
    LayoutSolid(n, 0, Start, [], 0);
    assert [] + n[0..] == n;
  }

  // ---------------------------------------------------------------------
  // the source's first pass is not idempotent

  /** The characters the second pass lays out around. */
  predicate Structural(c: char) { c == '(' || c == ')' || c == ',' || c == ';' }

  /** Text without `(`, `)`, `,` or `;` outside strings and brackets is
      laid out as it is. */
  lemma {:induction false} LayoutPlain(n: string, i: nat, sc: Scanner, result: string, level: nat)
    requires i <= |n|
    requires forall k | i <= k < |n| :: !Structural(n[k])
    ensures LayFrom(n, i, sc, result, level) == result + n[i..]
    decreases |n| - i
  {
    if i == |n| {
      assert result + n[i..] == result;
    } else {
      assert !Structural(n[i]);
      assert LayStep(n, i, level, Verbatim(Advance(sc, n[i])), ClosesLine(result)) == ("", "", level);
      assert result + "" + [n[i]] + "" == result + [n[i]];
      LayoutPlain(n, i + 1, Advance(sc, n[i]), result + [n[i]], level);
      assert result + [n[i]] + n[i + 1..] == result + n[i..];
    }
  }

  /** A character neither pass reacts to: bare, and not a backslash. */
  predicate Inert(c: char) { Bare(c) && c != '\\' }

  /** Inside a string opened by `"`, the first pass keeps `a b"` whole. */
  lemma KeptInString(sc: Scanner, a: char, b: char)
    requires sc.inString && sc.quote == '"' && sc.prev != Some('\\')
    requires Inert(a) && Inert(b)
    ensures NormalizeWritten([a, ' ', b, '"'], sc).0 == [a, ' ', b, '"']
  {
    var s1 := Advance(sc, a);
    var s2 := Advance(s1, ' ');
    var s3 := Advance(s2, b);
    assert s3.inString && s3.quote == '"' && s3.prev == Some(b);
    assert Keeps(s3, '"');
    WrittenStep('"', [], s3);
    assert Keeps(s2, b);
    WrittenStep(b, ['"'], s2);
    assert Keeps(s1, ' ');
    WrittenStep(' ', [b, '"'], s1);
    assert Keeps(sc, a);
    WrittenStep(a, [' ', b, '"'], sc);
  }

  /** Outside strings and brackets, the first pass drops the space of
      `a b"`. */
  lemma SpaceDroppedOutside(sc: Scanner, a: char, b: char)
    requires !sc.inString && sc.depth == 0
    requires Inert(a) && Inert(b)
    ensures NormalizeWritten([a, ' ', b, '"'], sc).0 == [a, b, '"']
  {
    var s1 := Advance(sc, a);
    var s2 := Advance(s1, ' ');
    var s3 := Advance(s2, b);
    assert Keeps(s3, '"');
    WrittenStep('"', [], s3);
    assert Keeps(s2, b);
    WrittenStep(b, ['"'], s2);
    assert !Keeps(s1, ' ');
    WrittenStep(' ', [b, '"'], s1);
    assert Keeps(sc, a);
    WrittenStep(a, [' ', b, '"'], sc);
  }

  /** One step of the first pass as written. */
  lemma WrittenStep(c: char, t: string, sc: Scanner)
    ensures NormalizeWritten([c] + t, sc).0
         == (if Keeps(sc, c) then [c] else []) + NormalizeWritten(t, Advance(sc, c)).0
  {
    assert ([c] + t)[0] == c && ([c] + t)[1..] == t;
  }

  /** `\ "a b"` normalizes to `\"a b"`: the space after the backslash is
      dropped, and the quote it shielded now follows the backslash. */
  lemma NormalizeWrittenOnce(a: char, b: char)
    requires Inert(a) && Inert(b)
    ensures NormalizeWritten(['\\', ' ', '"', a, ' ', b, '"'], Start).0 == ['\\', '"', a, ' ', b, '"']
  {
    var t := [a, ' ', b, '"'];
    var s3 := Advance(Advance(Advance(Start, '\\'), ' '), '"');
    WrittenHead(t);
    assert s3.inString && s3.quote == '"' && s3.prev == Some('"');
    KeptInString(s3, a, b);
    assert ['\\', ' ', '"'] + t == ['\\', ' ', '"', a, ' ', b, '"'];
    assert ['\\', '"'] + t == ['\\', '"', a, ' ', b, '"'];
  }

  /** The first pass as written over `\ "`: the space is dropped, the
      quote opens a string. */
  lemma WrittenHead(t: string)
    ensures NormalizeWritten(['\\', ' ', '"'] + t, Start).0
         == ['\\', '"'] + NormalizeWritten(t, Advance(Advance(Advance(Start, '\\'), ' '), '"')).0
  {
    var s1 := Advance(Start, '\\');
    var s2 := Advance(s1, ' ');
    WrittenStep('"', t, s2);
    assert !Keeps(s1, ' ');
    WrittenStep(' ', ['"'] + t, s1);
    assert Keeps(Start, '\\');
    WrittenStep('\\', [' '] + (['"'] + t), Start);
    assert ['\\'] + ([' '] + (['"'] + t)) == ['\\', ' ', '"'] + t;
  }

  /** ... and `\"a b"` normalizes to `\"ab"`: now the quote is escaped,
      the space is outside any string and is dropped. */
  lemma NormalizeWrittenTwice(a: char, b: char)
    requires Inert(a) && Inert(b)
    ensures NormalizeWritten(['\\', '"', a, ' ', b, '"'], Start).0 == ['\\', '"', a, b, '"']
  {
    var t := [a, ' ', b, '"'];
    var s1 := Advance(Start, '\\');
    var s2 := Advance(s1, '"');
    assert !s2.inString && s2.depth == 0;
    SpaceDroppedOutside(s2, a, b);
    assert Keeps(s1, '"');
    WrittenStep('"', t, s1);
    assert Keeps(Start, '\\');
    WrittenStep('\\', ['"'] + t, Start);
    assert ['\\'] + (['"'] + t) == ['\\', '"', a, ' ', b, '"'];
    assert ['\\'] + (['"'] + [a, b, '"']) == ['\\', '"', a, b, '"'];
  }

  /** Text with none of `(`, `)`, `,` and `;` is laid out as it is. */
  lemma LayoutOfPlain(n: string)
    requires forall k | 0 <= k < |n| :: !Structural(n[k])
    ensures Layout(n) == n
  {
    LayoutPlain(n, 0, Start, [], 0);
    assert [] + n[0..] == n;
  }

  /** Formatting a formatted formula can change it again: `\ "a b"`
      formats to `\"a b"`, which formats to `\"ab"`, for any two
      characters `a` and `b` neither pass reacts to. */
  lemma FormatWrittenNotIdempotent(a: char, b: char)
    requires Inert(a) && Inert(b)
    ensures var x := ['\\', ' ', '"', a, ' ', b, '"'];
      && FormatWritten(x) == ['\\', '"', a, ' ', b, '"']
      && FormatWritten(FormatWritten(x)) == ['\\', '"', a, b, '"']
      && FormatWritten(FormatWritten(x)) != FormatWritten(x)
  {
    var x := ['\\', ' ', '"', a, ' ', b, '"'];
    var y := ['\\', '"', a, ' ', b, '"'];
    var z := ['\\', '"', a, b, '"'];
    NormalizeWrittenOnce(a, b);
    NormalizeWrittenTwice(a, b);
    FormatWrittenStep(x, y);
    FormatWrittenStep(y, z);
    assert |z| != |y|;
  }

  /** The source's formatting of a text whose first pass gives `y`, which
      holds no `(`, `)`, `,` or `;`: `y` itself. */
  lemma FormatWrittenStep(x: string, y: string)
    requires NormalizeWritten(x, Start).0 == y
    requires forall k | 0 <= k < |y| :: !Structural(y[k])
    ensures FormatWritten(x) == y
  {
    LayoutOfPlain(y);
  }

  // ---------------------------------------------------------------------
  // the editor's loops

  /** What both passes do with the character `c`: an unescaped quote
      opens a string or closes the one of its kind, and brackets move the
      depth. */
  method ScanChar(sc: Scanner, c: char) returns (depth: nat, inString: bool, quote: char)
    ensures Scanner(depth, inString, quote, Some(c)) == Advance(sc, c)
  {
    depth, inString, quote := sc.depth, sc.inString, sc.quote;
    if IsQuote(c) && sc.prev != Some('\\') {
      if !inString {
        inString, quote := true, c;
      } else if c == quote {
        inString := false;
      }
    }
    if c == '[' { depth := depth + 1; }
    if c == ']' { depth := Down(depth); }
  }

  /** The first pass of `formatFormula`, the escape test looking at the
      last character kept. */
  method NormalizeFormula(formula: string) returns (normalized: string)
    ensures normalized == Normalize(formula, Start).0
  {
    normalized := "";
    var depth: nat, inString, quote, lastKept := 0, false, '"', None;
    var i := 0;
    while i < |formula|
      invariant 0 <= i <= |formula|
      invariant normalized + Normalize(formula[i..], Scanner(depth, inString, quote, lastKept)).0
             == Normalize(formula, Start).0
      decreases |formula| - i
    {
      var c := formula[i];
      var sc := Scanner(depth, inString, quote, lastKept);
      NormalizeStep(formula, i, sc);
      depth, inString, quote := ScanChar(sc, c);
      if depth > 0 || inString || !IsSpace(c) {
        assert Keeps(sc, c);
        Regroup(normalized, [c], Normalize(formula[i + 1..], Advance(sc, c)).0);
        normalized := normalized + [c];
        lastKept := Some(c);
      } else {
        SpaceMovesNothing(c);
        assert !Keeps(sc, c);
      }
      i := i + 1;
    }
    assert formula[i..] == [];
  }

  /** One step of the corrected first pass, at `i`. */
  lemma NormalizeStep(s: string, i: nat, sc: Scanner)
    requires i < |s|
    ensures Normalize(s[i..], sc).0
         == if Keeps(sc, s[i]) then [s[i]] + Normalize(s[i + 1..], Advance(sc, s[i])).0
            else Normalize(s[i + 1..], sc).0
  {
    assert s[i..][0] == s[i] && s[i..][1..] == s[i + 1..];
  }

  /** The second pass at a `)` outside strings and brackets, `level`
      already lowered: the line is broken first when it holds content and
      does not follow a `(`. */
  method CloseParen(written: string, level: nat) returns (result: string)
    ensures result == written + (if ClosesLine(written) then Break(level) else "") + ")"
  {
    result := written;
    ClosesLineAgrees(written);
    if BreaksBeforeClose(result) {
      result := result + Break(level);
    }
    result := result + ")";
  }

  /** The second pass at the character at `i`, given whether it is inside
      a string or brackets. */
  method LayChar(n: string, i: nat, written: string, level: nat, verbatim: bool)
    returns (result: string, level': nat)
    requires i < |n|
    ensures var step := LayStep(n, i, level, verbatim, ClosesLine(written));
      result == written + step.0 + [n[i]] + step.1 && level' == step.2
  {
    var c := n[i];
    result, level' := written, level;
    if verbatim {
      result := result + [c];
      assert result == written + "" + [c] + "";
    } else if c == '(' {
      result := result + [c];
      level' := level' + 1;
      if i + 1 < |n| && n[i + 1] != ')' {
        result := result + Break(level');
      } else {
        assert result == written + "" + [c] + "";
      }
    } else if c == ')' {
      level' := Down(level');
      result := CloseParen(result, level');
    } else if c == ',' || c == ';' {
      result := result + [c] + Break(level');
      assert result == written + "" + [c] + Break(level');
    } else {
      result := result + [c];
      assert result == written + "" + [c] + "";
    }
  }

  /** One step of the second pass, at `i`. */
  lemma LayFromStep(n: string, i: nat, sc: Scanner, result: string, level: nat, verbatim: bool)
    requires i < |n| && verbatim == Verbatim(Advance(sc, n[i]))
    ensures var step := LayStep(n, i, level, verbatim, ClosesLine(result));
      LayFrom(n, i, sc, result, level) == LayFrom(n, i + 1, Advance(sc, n[i]), result + step.0 + [n[i]] + step.1, step.2)
  {
  }

  /** The second pass of `formatFormula`. */
  method LayOut(n: string) returns (result: string)
    ensures result == Layout(n)
  {
    result := "";
    var level: nat := 0;
    var sc := Start;
    var i := 0;
    while i < |n|
      invariant 0 <= i <= |n|
      invariant LayFrom(n, i, sc, result, level) == Layout(n)
      decreases |n| - i
    {
      var c := n[i];
      var depth, inString, quote := ScanChar(sc, c);
      var verbatim := depth > 0 || inString;
      LayFromStep(n, i, sc, result, level, verbatim);
      result, level := LayChar(n, i, result, level, verbatim);
      sc := Scanner(depth, inString, quote, Some(c));
      i := i + 1;
    }
  }

  /** `formatFormula(formula)`, with the first pass corrected. */
  method FormatFormula(formula: string) returns (result: string)
    ensures result == Format(formula)
  {
    var normalized := NormalizeFormula(formula);
    result := LayOut(normalized);
  }
}
