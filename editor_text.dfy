/** The editor's text helpers: stripping `//` comments, the indentation of
    the line being typed, the indent level the parentheses call for, and
    the field names a formula refers to. */
module EditorText {
  import opened JsString
  import opened StringOrder
  import opened Wrappers

  // ---------------------------------------------------------------------
  // stripComments

  /** `//` starts at position `k`. */
  predicate SlashesAt(s: string, k: int) {
    0 <= k && k + 1 < |s| && s[k] == '/' && s[k + 1] == '/'
  }

  predicate HasComment(s: string) {
    exists k | 0 <= k < |s| :: SlashesAt(s, k)
  }

  /** Where the first `//` at or after `i` starts, or `|s|` if none does. */
  function CommentStart(s: string, i: nat): (r: nat)
    requires i <= |s|
    ensures i <= r <= |s| && (r < |s| ==> SlashesAt(s, r))
    ensures forall k | i <= k < r :: !SlashesAt(s, k)
    decreases |s| - i
  {
    if i == |s| || SlashesAt(s, i) then i else CommentStart(s, i + 1)
  }

  /** The first `c` at or after `i`, or the end: where a line ends for
      `c == '\n'`, where a field's name stops for `c == ']'`. */
  function FirstAt(s: string, i: nat, c: char): (r: nat)
    requires i <= |s|
    ensures i <= r <= |s| && (r == |s| || s[r] == c)
    ensures forall k | i <= k < r :: s[k] != c
    decreases |s| - i
  {
    if i == |s| || s[i] == c then i else FirstAt(s, i + 1, c)
  }

  /** `code.replace(/\/\/[^\n]*\/g, '')`: every `//` and the rest of its
      line removed, the line break kept. Quotes are not looked at. */
  function StripComments(s: string): (r: string)
    ensures !HasComment(s) ==> r == s
    decreases |s|
  {
    var i := CommentStart(s, 0);
    if i == |s| then s
    else s[..i] + StripComments(s[FirstAt(s, i + 2, '\n')..])
  }

  /** What follows a removed comment is a line break, so the first
      character of a text survives unless a comment starts there. */
  lemma StripKeepsHead(s: string)
    requires s != [] && !SlashesAt(s, 0)
    ensures StripComments(s) != [] && StripComments(s)[0] == s[0]
  {
    var i := CommentStart(s, 0);
    if i < |s| {
      assert StripComments(s) == s[..i] + StripComments(s[FirstAt(s, i + 2, '\n')..]);
    }
  }

  /** A prefix in which no `//` starts has no comment. */
  lemma NoCommentBefore(s: string, i: nat)
    requires i <= |s|
    requires forall k | 0 <= k < i :: !SlashesAt(s, k)
    ensures !HasComment(s[..i])
  {
    forall k | 0 <= k < i ensures !SlashesAt(s[..i], k) {
      assert !SlashesAt(s, k);
    }
  }

  lemma NoSlashesAcross(a: string, b: string)
    requires !HasComment(a) && !HasComment(b)
    requires a == [] || b == [] || a[|a| - 1] != '/' || b[0] != '/'
    ensures !HasComment(a + b)
  {
    var s := a + b;
    forall k | 0 <= k < |s| ensures !SlashesAt(s, k) {
      if k + 1 < |a| {
        assert !SlashesAt(a, k);
      } else if k >= |a| {
        assert !SlashesAt(b, k - |a|);
      }
    }
  }

  /** One step of `StripComments` at the first comment. */
  lemma StripStep(s: string, i: nat, j: nat)
    requires i == CommentStart(s, 0) < |s| && j == FirstAt(s, i + 2, '\n')
    ensures StripComments(s) == s[..i] + StripComments(s[j..])
  {
  }

  /** What is left after a comment is empty or starts with its line
      break. */
  lemma LineBreakAt(s: string, i: nat, j: nat)
    requires i <= |s| && j == FirstAt(s, i, '\n')
    ensures s[j..] == [] || s[j..][0] == '\n'
  {
  }

  /** No `//` is left: each removed comment leaves its line break behind,
      and no `//` can straddle a line break. */
  lemma {:induction false} StripRemovesAll(s: string)
    ensures !HasComment(StripComments(s))
    decreases |s|
  {
    var i := CommentStart(s, 0);
    if i < |s| {
      var j := FirstAt(s, i + 2, '\n');
      var rest := s[j..];
      StripStep(s, i, j);
      NoCommentBefore(s, i);
      LineBreakAt(s, i + 2, j);
      StripRemovesAll(rest);
      if rest != [] {
        StripKeepsHead(rest);
      }
      NoSlashesAcross(s[..i], StripComments(rest));
    }
  }

  /** The number of times `c` occurs in `s`. */
  function CountOf(s: string, c: char): nat {
    if s == [] then 0 else CountOf(s[..|s| - 1], c) + (if s[|s| - 1] == c then 1 else 0)
  }

  lemma {:induction false} CountOfConcat(a: string, b: string, c: char)
    ensures CountOf(a + b, c) == CountOf(a, c) + CountOf(b, c)
    decreases |b|
  {
    if b != [] {
      assert (a + b)[..|a + b| - 1] == a + b[..|b| - 1];
      CountOfConcat(a, b[..|b| - 1], c);
    } else {
      assert a + b == a;
    }
  }

  lemma {:induction false} CountOfAbsent(s: string, c: char)
    requires forall k | 0 <= k < |s| :: s[k] != c
    ensures CountOf(s, c) == 0
    decreases |s|
  {
    if s != [] { CountOfAbsent(s[..|s| - 1], c); }
  }

  lemma BreaksAround(a: string, c: string, rest: string, t: string)
    requires forall k | 0 <= k < |c| :: c[k] != '\n'
    requires CountOf(t, '\n') == CountOf(rest, '\n')
    ensures CountOf(a + t, '\n') == CountOf(a + c + rest, '\n')
  {
    CountOfAbsent(c, '\n');
    CountOfConcat(a, c, '\n');
    CountOfConcat(a + c, rest, '\n');
    CountOfConcat(a, t, '\n');
  }

  /** A comment runs from its `//` up to, not including, the line break. */
  lemma CommentSpan(s: string, i: nat, e: nat)
    requires SlashesAt(s, i) && i + 2 <= e <= |s|
    requires forall k | i + 2 <= k < e :: s[k] != '\n'
    ensures s == s[..i] + s[i..e] + s[e..]
    ensures forall k | 0 <= k < e - i :: s[i..e][k] != '\n'
  {
    forall k | 0 <= k < e - i ensures s[i..e][k] != '\n' {
      assert s[i..e][k] == s[i + k];
    }
  }

  /** Cutting the first comment out of `s` and replacing what follows it
      by a text `t` with as many line breaks leaves the count unchanged. */
  lemma CommentSpanBreaks(s: string, t: string)
    requires CommentStart(s, 0) < |s|
    requires CountOf(t, '\n') == CountOf(s[FirstAt(s, CommentStart(s, 0) + 2, '\n')..], '\n')
    ensures CountOf(s[..CommentStart(s, 0)] + t, '\n') == CountOf(s, '\n')
  {
    var i := CommentStart(s, 0);
    var e := FirstAt(s, i + 2, '\n');
    CommentSpan(s, i, e);
    BreaksAround(s[..i], s[i..e], s[e..], t);
  }

  /** Stripping keeps every line break, so the formula keeps its lines. */
  lemma {:induction false} StripKeepsLineBreaks(s: string)
    ensures CountOf(StripComments(s), '\n') == CountOf(s, '\n')
    decreases |s|
  {
    var i := CommentStart(s, 0);
    if i < |s| {
      var rest := s[FirstAt(s, i + 2, '\n')..];
      StripKeepsLineBreaks(rest);
      CommentSpanBreaks(s, StripComments(rest));
    }
  }

  /** Stripping twice is stripping once. */
  lemma StripIdempotent(s: string)
    ensures StripComments(StripComments(s)) == StripComments(s)
  {
    StripRemovesAll(s);
  }

  /** A `//` cuts the rest of its line even inside quotes: whatever comes
      before it on the line is kept, and nothing after it up to the line
      break. */
  lemma CommentCutsLine(a: string, t: string)
    requires !HasComment(a) && (a == [] || a[|a| - 1] != '/')
    requires '\n' !in t
    ensures StripComments(a + "//" + t) == a
  {
    var s := a + "//" + t;
    FirstCommentAfter(a, t);
    LineRunsOut(a, t);
    assert s[..|a|] == a;
    assert s[|s|..] == [];
  }

  /** In `a + "//" + t`, with no `//` in `a` or across its end, the first
      comment starts right after `a`. */
  lemma FirstCommentAfter(a: string, t: string)
    requires !HasComment(a) && (a == [] || a[|a| - 1] != '/')
    ensures CommentStart(a + "//" + t, 0) == |a|
  {
    var s := a + "//" + t;
    assert SlashesAt(s, |a|);
    forall k | 0 <= k < |a| ensures !SlashesAt(s, k) {
      if k + 1 < |a| {
        assert !SlashesAt(a, k);
      }
    }
  }

  /** With no line break in `t`, the comment's line runs to the end. */
  lemma LineRunsOut(a: string, t: string)
    requires '\n' !in t
    ensures FirstAt(a + "//" + t, |a| + 2, '\n') == |a + "//" + t|
  {
    var s := a + "//" + t;
    assert forall k | |a| + 2 <= k < |s| :: s[k] == t[k - |a| - 2];
  }

  // ---------------------------------------------------------------------
  // getCurrentIndent

  predicate IsIndentChar(c: char) { c == ' ' || c == '\t' }

  /** The end of the run of spaces and tabs that starts at `i`. */
  function IndentEnd(s: string, i: nat): (r: nat)
    requires i <= |s|
    ensures i <= r <= |s| && (r == |s| || !IsIndentChar(s[r]))
    ensures forall k | i <= k < r :: IsIndentChar(s[k])
    decreases |s| - i
  {
    if i < |s| && IsIndentChar(s[i]) then IndentEnd(s, i + 1) else i
  }

  lemma BreakAt(s: string, k: int)
    ensures OccursAt(s, "\n", k) <==> 0 <= k < |s| && s[k] == '\n'
  {
    if 0 <= k < |s| { assert s[k..k + 1] == [s[k]]; }
  }

  /** Where the last line starts: just after the last line break. */
  function LastLineStart(text: string): (r: nat)
    ensures r <= |text| && (r == 0 || text[r - 1] == '\n')
    ensures forall k | r <= k < |text| :: text[k] != '\n'
  {
    var n := LastIndexOf(text, "\n");
    BreakAt(text, n);
    assert forall k | n < k < |text| :: text[k] != '\n' by {
      forall k | n < k < |text| ensures text[k] != '\n' { BreakAt(text, k); }
    }
    n + 1
  }

  /** `getCurrentIndent`: the spaces and tabs that start the last line. */
  function CurrentIndent(text: string): (r: string)
    ensures forall k | 0 <= k < |r| :: IsIndentChar(r[k])
    ensures var line := text[LastLineStart(text)..];
      StartsWith(line, r) && (|r| == |line| || !IsIndentChar(line[|r|]))
  {
    var line := text[LastLineStart(text)..];
    line[..IndentEnd(line, 0)]
  }

  lemma LastBreakOfLine(a: string, b: string)
    requires '\n' !in b
    ensures LastLineStart(a + "\n" + b) == |a| + 1
  {
    var s := a + "\n" + b;
    assert s[|a|] == '\n';
    assert forall k | |a| < k < |s| :: s[k] == b[k - |a| - 1];
  }

  lemma NoBreakNoLast(s: string)
    requires '\n' !in s
    ensures LastLineStart(s) == 0
  {
  }

  /** Only the last line counts ... */
  lemma CurrentIndentOfLastLine(a: string, b: string)
    requires '\n' !in b
    ensures CurrentIndent(a + "\n" + b) == CurrentIndent(b)
  {
    LastBreakOfLine(a, b);
    NoBreakNoLast(b);
    assert (a + "\n" + b)[|a| + 1..] == b;
  }

  /** ... and on it the indent is the whole leading run of spaces and
      tabs, stopping at the first other character. */
  lemma CurrentIndentOfLine(w: string, c: char, t: string)
    requires forall k | 0 <= k < |w| :: IsIndentChar(w[k])
    requires !IsIndentChar(c) && c != '\n' && '\n' !in t
    ensures CurrentIndent(w + [c] + t) == w
  {
    var s := w + [c] + t;
    assert forall k | |w| < k < |s| :: s[k] == t[k - |w| - 1];
    NoBreakNoLast(s);
    assert s[0..] == s;
    var e := IndentEnd(s, 0);
    assert s[|w|] == c;
    assert forall k | 0 <= k < |w| :: s[k] == w[k];
    assert s[..|w|] == w;
  }

  /** A last line made only of spaces and tabs is all indent. */
  lemma CurrentIndentOfIndent(w: string)
    requires forall k | 0 <= k < |w| :: IsIndentChar(w[k])
    ensures CurrentIndent(w) == w
  {
    assert '\n' !in w by {
      forall k | 0 <= k < |w| ensures w[k] != '\n' { assert IsIndentChar(w[k]); }
    }
    NoBreakNoLast(w);
    assert w[0..] == w;
  }

  // ---------------------------------------------------------------------
  // getIndentLevel

  /** `Math.max(0, depth - 1)`. */
  function Down(n: nat): nat { if n == 0 then 0 else n - 1 }

  /** The square-bracket depth after the first `i` characters. */
  function BracketDepth(s: string, i: nat): nat
    requires i <= |s|
  {
    if i == 0 then 0
    else
      var d := BracketDepth(s, i - 1);
      if s[i - 1] == '[' then d + 1 else if s[i - 1] == ']' then Down(d) else d
  }

  /** What character `i` does to the paren count: `(` and `)` outside
      square brackets open and close, anything else nothing. */
  function Delta(s: string, i: nat): int
    requires i < |s|
  {
    if BracketDepth(s, i + 1) != 0 then 0
    else if s[i] == '(' then 1
    else if s[i] == ')' then -1
    else 0
  }

  /** The level after the first `i` characters, never below 0. */
  function LevelAfter(s: string, i: nat): (r: nat)
    requires i <= |s|
    ensures r <= i
    ensures (forall k | 0 <= k < i :: s[k] != '(') ==> r == 0
  {
    if i == 0 then 0
    else
      var l := LevelAfter(s, i - 1) + Delta(s, i - 1);
      if l < 0 then 0 else l
  }

  /** The count of opening minus closing parens among the first `i`
      characters, unclamped. */
  function Balance(s: string, i: nat): int
    requires i <= |s|
  {
    if i == 0 then 0 else Balance(s, i - 1) + Delta(s, i - 1)
  }

  /** The lowest the balance gets over the first `i` characters. */
  function LowestBalance(s: string, i: nat): (r: int)
    requires i <= |s|
    ensures r <= 0 && r <= Balance(s, i)
  {
    if i == 0 then 0
    else
      var m := LowestBalance(s, i - 1);
      if Balance(s, i) < m then Balance(s, i) else m
  }

  /** The level is the number of `(` still open: the balance, plus one
      for every `)` that had nothing to close. */
  lemma {:induction false} LevelCountsUnmatched(s: string, i: nat)
    requires i <= |s|
    ensures LevelAfter(s, i) == Balance(s, i) - LowestBalance(s, i)
  {
    if i > 0 {
      LevelCountsUnmatched(s, i - 1);
    }
  }

  /** `getIndentLevel(text)`. */
  method GetIndentLevel(text: string) returns (level: nat)
    ensures level == LevelAfter(text, |text|)
    ensures level == Balance(text, |text|) - LowestBalance(text, |text|)
  {
    level := 0;
    var depth: nat := 0;
    var i := 0;
    while i < |text|
      invariant 0 <= i <= |text|
      invariant depth == BracketDepth(text, i)
      invariant level == LevelAfter(text, i)
    {
      var c := text[i];
      if c == '[' { depth := depth + 1; }
      if c == ']' { depth := Down(depth); }
      if depth == 0 {
        if c == '(' { level := level + 1; }
        if c == ')' { level := Down(level); }
      }
      i := i + 1;
    }
    LevelCountsUnmatched(text, |text|);
  }

  // ---------------------------------------------------------------------
  // extractFields

  /** `[[ name ]]` between `a` and `b`: two opening brackets, at least one
      character that is not `]`, then two closing brackets. */
  predicate FieldAt(s: string, a: nat, b: nat) {
    a + 2 < b && b + 2 <= |s|
    && s[a] == '[' && s[a + 1] == '['
    && s[b] == ']' && s[b + 1] == ']'
    && forall k | a + 2 <= k < b :: s[k] != ']'
  }

  /** The text from `a` up to `b`, character by character. */
  function Between(s: string, a: nat, b: nat): (r: string)
    requires a <= b <= |s|
    ensures |r| == b - a
    decreases b - a
  {
    if a == b then [] else [s[a]] + Between(s, a + 1, b)
  }

  /** `x` with its blanks cut one at a time, first from the front, then
      from the back. */
  function Cut(x: string): string
    decreases |x|
  {
    if x != [] && IsSpace(x[0]) then Cut(x[1..])
    else if x != [] && IsSpace(x[|x| - 1]) then Cut(x[..|x| - 1])
    else x
  }

  /** Cutting blank by blank is `trim`. */
  lemma {:induction false} CutIsTrim(x: string)
    ensures Cut(x) == Trim(x)
    decreases |x|
  {
    if x != [] && IsSpace(x[0]) {
      CutIsTrim(x[1..]);
      TrimBlankHead(x);
    } else if x != [] && IsSpace(x[|x| - 1]) {
      CutIsTrim(x[..|x| - 1]);
      TrimBlankTail(x);
    } else {
      TrimSolid(x);
    }
  }

  /** The text from `a` to `b` with the blanks at both ends cut. */
  function Name(s: string, a: nat, b: nat): string
    requires a <= b <= |s|
    decreases b - a
  {
    if a < b && IsSpace(s[a]) then Name(s, a + 1, b)
    else if a < b && IsSpace(s[b - 1]) then Name(s, a, b - 1)
    else Between(s, a, b)
  }

  /** `Name` cuts the stretch as `Cut` does. */
  lemma {:induction false} NameIsCut(s: string, a: nat, b: nat)
    requires a <= b <= |s|
    ensures Name(s, a, b) == Cut(s[a..b])
    decreases b - a
  {
    var x := s[a..b];
    if a < b && IsSpace(s[a]) {
      NameIsCut(s, a + 1, b);
      assert x[1..] == s[a + 1..b];
    } else if a < b && IsSpace(s[b - 1]) {
      NameIsCut(s, a, b - 1);
      assert x[..|x| - 1] == s[a..b - 1];
    } else {
      BetweenIsSlice(s, a, b);
    }
  }

  /** `Name` is `trim` of the stretch. */
  lemma NameIsTrim(s: string, a: nat, b: nat)
    requires a <= b <= |s|
    ensures Name(s, a, b) == Trim(s[a..b])
  {
    NameIsCut(s, a, b);
    CutIsTrim(s[a..b]);
  }

  /** A name is already trimmed. */
  lemma NameTrimmed(s: string, a: nat, b: nat)
    requires a <= b <= |s|
    ensures Trimmed(Name(s, a, b))
  {
    NameIsTrim(s, a, b);
    TrimIdempotent(s[a..b]);
  }

  lemma {:induction false} BetweenIsSlice(s: string, a: nat, b: nat)
    requires a <= b <= |s|
    ensures Between(s, a, b) == s[a..b]
    decreases b - a
  {
    if a < b {
      BetweenIsSlice(s, a + 1, b);
    }
  }

  /** Where the pattern `\[\[\s*([^\]]+?)\s*\]\]` matches at `a`: where
      its closing brackets start. The name is the trimmed text between. */
  function MatchAt(s: string, a: nat): (r: Option<nat>)
    requires a <= |s|
    ensures r.Some? ==> FieldAt(s, a, r.value)
  {
    if a + 2 <= |s| && s[a] == '[' && s[a + 1] == '[' then
      var b := FirstAt(s, a + 2, ']');
      if a + 2 < b && b + 1 < |s| && s[b + 1] == ']' then Some(b)
      else None
    else None
  }

  /** Where no match starts at `a`, no field reference does. */
  lemma NoMatchNoField(s: string, a: nat, b: nat)
    requires a <= |s| && MatchAt(s, a).None?
    ensures !FieldAt(s, a, b)
  {
    if a + 2 <= |s| && s[a] == '[' && s[a + 1] == '[' {
      var c := FirstAt(s, a + 2, ']');
    }
  }

  /** The name a try of the pattern at `p` finds: the trimmed text
      between the brackets of a match, or none. */
  function Found(s: string, p: nat): set<string>
    requires p < |s|
  {
    match MatchAt(s, p)
    case Some(b) => {Name(s, p + 2, b)}
    case None => {}
  }

  /** Where the search resumes: after the closing brackets of a match,
      or one character on. */
  function Next(s: string, p: nat): (r: nat)
    requires p < |s|
    ensures p < r <= |s|
  {
    match MatchAt(s, p)
    case Some(b) => b + 2
    case None => p + 1
  }

  /** The names the pattern finds from position `p` on, each match
      resuming after the previous one. */
  function FieldsFrom(s: string, p: nat): set<string>
    requires p <= |s|
    decreases |s| - p
  {
    if p == |s| then {}
    else Found(s, p) + FieldsFrom(s, Next(s, p))
  }

  /** Every name the search finds is already trimmed. */
  lemma {:induction false} FieldsTrimmed(s: string, p: nat)
    requires p <= |s|
    ensures forall name | name in FieldsFrom(s, p) :: Trimmed(name)
    decreases |s| - p
  {
    if p < |s| {
      FieldsTrimmed(s, Next(s, p));
      FoundTrimmed(s, p);
      FieldsUnfold(s, p);
    }
  }

  /** A name found is already trimmed. */
  lemma FoundTrimmed(s: string, p: nat)
    requires p < |s|
    ensures forall name | name in Found(s, p) :: Trimmed(name)
  {
    match MatchAt(s, p)
    case Some(b) => NameTrimmed(s, p + 2, b);
    case None =>
  }

  ghost predicate Named(s: string, name: string) {
    exists a: nat, b: nat | FieldAt(s, a, b) :: name == Name(s, a + 2, b)
  }

  /** Every name found is the trimmed inside of some `[[ ... ]]`. */
  lemma {:induction false} FieldsAreReferences(s: string, p: nat)
    requires p <= |s|
    ensures forall name | name in FieldsFrom(s, p) :: Named(s, name)
    decreases |s| - p
  {
    if p < |s| {
      FieldsAreReferences(s, Next(s, p));
      FieldsUnfold(s, p);
      FoundNamed(s, p);
    }
  }

  lemma FoundNamed(s: string, p: nat)
    requires p < |s|
    ensures forall name | name in Found(s, p) :: Named(s, name)
  {
    match MatchAt(s, p)
    case Some(b) =>
      var name := Name(s, p + 2, b);
      assert Found(s, p) == {name};
      NamedAt(s, p, b);
    case None =>
  }

  lemma NamedAt(s: string, a: nat, b: nat)
    requires FieldAt(s, a, b)
    ensures Named(s, Name(s, a + 2, b))
  {
  }

  predicate Trimmed(name: string) { Trim(name) == name }

  /** A formula that is one field reference names that field. */
  lemma SingleField(x: string)
    requires x != [] && ']' !in x
    ensures FieldsFrom("[[" + x + "]]", 0) == {Trim(x)}
  {
    var s := "[[" + x + "]]";
    assert forall k | 2 <= k < |x| + 2 :: s[k] == x[k - 2];
    assert s[|x| + 2] == ']';
    var b := FirstAt(s, 2, ']');
    assert b == |x| + 2;
    NameIsTrim(s, 2, b);
    assert s[2..b] == x;
    assert FieldsFrom(s, b + 2) == {};
  }

  /** Text without `[` finds nothing and moves the search past itself. */
  lemma {:induction false} SkipPlain(s: string, k: nat, m: nat)
    requires k <= m <= |s|
    requires forall j | k <= j < m :: s[j] != '['
    ensures FieldsFrom(s, k) == FieldsFrom(s, m)
    decreases m - k
  {
    if k < m {
      SkipPlain(s, k, m - 1);
      SkipOne(s, m - 1);
    }
  }

  lemma SkipOne(s: string, k: nat)
    requires k < |s| && s[k] != '['
    ensures FieldsFrom(s, k) == FieldsFrom(s, k + 1)
  {
    assert MatchAt(s, k).None?;
    FieldsUnfold(s, k);
  }

  /** A reference ends at the first `]` after its opening brackets. */
  lemma FieldEnds(s: string, i: nat, j: nat, j': nat)
    requires FieldAt(s, i, j) && FieldAt(s, i, j')
    ensures j == j'
  {
  }

  /** A field reference at `i` is where the pattern matches at `i`, and
      the search resumes after its closing brackets. */
  lemma FieldMatches(s: string, i: nat, j: nat)
    requires FieldAt(s, i, j)
    ensures MatchAt(s, i) == Some(j) && Next(s, i) == j + 2
  {
    assert FirstAt(s, i + 2, ']') == j;
  }

  /** The name found at a field reference is its trimmed inside. */
  lemma FieldFound(s: string, i: nat, j: nat)
    requires FieldAt(s, i, j)
    ensures Found(s, i) == {Name(s, i + 2, j)}
  {
    FieldMatches(s, i, j);
  }

  /** The search from `p` tries the pattern at `i`. */
  predicate Visits(s: string, p: nat, i: nat)
    requires p <= |s|
    decreases |s| - p
  {
    p == i || (p < i && p < |s| && Visits(s, Next(s, p), i))
  }

  /** Text without `[` is tried character by character. */
  lemma {:induction false} VisitsPlain(s: string, p: nat, i: nat)
    requires p <= i <= |s|
    requires forall k | p <= k < i :: s[k] != '['
    ensures Visits(s, p, i)
    decreases i - p
  {
    if p < i {
      assert MatchAt(s, p).None?;
      VisitsPlain(s, p + 1, i);
    }
  }

  /** A search that tries `q` tries everything the search from `q` tries. */
  lemma {:induction false} VisitsTransitive(s: string, p: nat, q: nat, r: nat)
    requires p <= q <= |s| && Visits(s, p, q) && Visits(s, q, r)
    ensures Visits(s, p, r)
    decreases |s| - p
  {
    if p < q {
      VisitsTransitive(s, Next(s, p), q, r);
    }
  }

  /** A reference that is tried is skipped whole: the search goes on
      right after its closing brackets. */
  lemma VisitsPastField(s: string, p: nat, i: nat, j: nat, r: nat)
    requires p <= |s| && FieldAt(s, i, j) && Visits(s, p, i) && Visits(s, j + 2, r)
    ensures Visits(s, p, r)
  {
    FieldMatches(s, i, j);
    VisitsTransitive(s, p, i, r);
  }

  /** Two places the search tries are tried in order: the later one is
      tried by the search from the earlier one. */
  lemma {:induction false} VisitsOrdered(s: string, p: nat, q: nat, r: nat)
    requires p <= |s| && Visits(s, p, q) && Visits(s, p, r) && q <= r
    ensures q <= |s| && Visits(s, q, r)
    decreases |s| - p
  {
    if p < q {
      VisitsOrdered(s, Next(s, p), q, r);
    }
  }

  /** After text without `[` comes a reference: its name is found, and
      so is every name found after its closing brackets, and nothing
      else. */
  lemma ReferenceFound(s: string, p: nat, i: nat, j: nat)
    requires p <= i && FieldAt(s, i, j)
    requires forall k | p <= k < i :: s[k] != '['
    ensures FieldsFrom(s, p) == {Name(s, i + 2, j)} + FieldsFrom(s, j + 2)
  {
    forall name ensures name in FieldsFrom(s, p) <==> name in {Name(s, i + 2, j)} + FieldsFrom(s, j + 2) {
      if name in FieldsFrom(s, p) {
        FoundBeforeOrAfter(s, p, i, j, name);
      }
      if name == Name(s, i + 2, j) {
        FirstFound(s, p, i, j);
      }
      if name in FieldsFrom(s, j + 2) {
        FoundAfter(s, p, i, j, name);
      }
    }
  }

  /** A reference `[[x]]` with no `[` before it: the pattern finds `x`
      trimmed, then goes on after the reference's closing brackets. */
  lemma {:induction false} FirstReference(s: string, i: nat, j: nat)
    requires FieldAt(s, i, j)
    requires forall k | 0 <= k < i :: s[k] != '['
    ensures FieldsFrom(s, 0) == {Trim(s[i + 2..j])} + FieldsFrom(s, j + 2)
  {
    ReferenceFound(s, 0, i, j);
    NameIsTrim(s, i + 2, j);
  }

  lemma FoundBeforeOrAfter(s: string, p: nat, i: nat, j: nat, name: string)
    requires p <= i && FieldAt(s, i, j)
    requires forall k | p <= k < i :: s[k] != '['
    requires name in FieldsFrom(s, p)
    ensures name == Name(s, i + 2, j) || name in FieldsFrom(s, j + 2)
  {
    var i', j' := FoundVisited(s, p, name);
    if i' != i || j' != j {
      OtherFoundAfter(s, p, i, j, i', j');
    }
  }

  lemma OtherFoundAfter(s: string, p: nat, i: nat, j: nat, i': nat, j': nat)
    requires p <= i && FieldAt(s, i, j)
    requires forall k | p <= k < i :: s[k] != '['
    requires FieldAt(s, i', j') && Visits(s, p, i') && (i' != i || j' != j)
    ensures Name(s, i' + 2, j') in FieldsFrom(s, j + 2)
  {
    VisitsPlain(s, p, i);
    ReferenceAfter(s, p, i, j, i', j');
    VisitedFound(s, j + 2, i', j');
  }

  lemma FirstFound(s: string, p: nat, i: nat, j: nat)
    requires p <= i && FieldAt(s, i, j)
    requires forall k | p <= k < i :: s[k] != '['
    ensures Name(s, i + 2, j) in FieldsFrom(s, p)
  {
    VisitsPlain(s, p, i);
    VisitedFound(s, p, i, j);
  }

  lemma FoundAfter(s: string, p: nat, i: nat, j: nat, name: string)
    requires p <= i && FieldAt(s, i, j)
    requires forall k | p <= k < i :: s[k] != '['
    requires name in FieldsFrom(s, j + 2)
    ensures name in FieldsFrom(s, p)
  {
    var i', j' := FoundVisited(s, j + 2, name);
    VisitsPlain(s, p, i);
    VisitsPastField(s, p, i, j, i');
    VisitedFound(s, p, i', j');
  }

  /** Any other reference the search from `p` tries comes after the
      first one's closing brackets. */
  lemma ReferenceAfter(s: string, p: nat, i: nat, j: nat, i': nat, j': nat)
    requires p <= i && FieldAt(s, i, j) && Visits(s, p, i)
    requires forall k | p <= k < i :: s[k] != '['
    requires FieldAt(s, i', j') && Visits(s, p, i') && (i' != i || j' != j)
    ensures Visits(s, j + 2, i')
  {
    if i' == i {
      FieldEnds(s, i, j, j');
    }
    assert !(p <= i' < i);
    VisitsOrdered(s, p, i, i');
    FieldMatches(s, i, j);
  }

  /** A reference the search tries has its name found. */
  lemma {:induction false} VisitedFound(s: string, p: nat, i: nat, j: nat)
    requires p <= |s| && FieldAt(s, i, j) && Visits(s, p, i)
    ensures Name(s, i + 2, j) in FieldsFrom(s, p)
    decreases |s| - p
  {
    FieldsUnfold(s, p);
    if p == i {
      FieldFound(s, i, j);
    } else {
      VisitedFound(s, Next(s, p), i, j);
    }
  }

  /** A name found is the name of a reference the search tries. */
  lemma {:induction false} FoundVisited(s: string, p: nat, name: string) returns (i: nat, j: nat)
    requires p <= |s| && name in FieldsFrom(s, p)
    ensures FieldAt(s, i, j) && Visits(s, p, i) && name == Name(s, i + 2, j)
    decreases |s| - p
  {
    var m := MatchAt(s, p);
    if m.Some? && name == Name(s, p + 2, m.value) {
      i, j := p, m.value;
    } else {
      FoundAt(s, p, name);
      i, j := FoundVisited(s, Next(s, p), name);
    }
  }

  /** A name the try at `p` does not find is found after it, if at all. */
  lemma FoundAt(s: string, p: nat, name: string)
    requires p < |s| && name in FieldsFrom(s, p)
    requires MatchAt(s, p).Some? ==> name != Name(s, p + 2, MatchAt(s, p).value)
    ensures name in FieldsFrom(s, Next(s, p))
  {
    FieldsUnfold(s, p);
    if MatchAt(s, p).Some? {
      FieldFound(s, p, MatchAt(s, p).value);
    }
  }

  /** The names found from `p` on are exactly the names of the
      references the search tries. */
  lemma FieldsExactly(s: string, p: nat)
    requires p <= |s|
    ensures forall name :: name in FieldsFrom(s, p) <==>
      exists i: nat, j: nat | FieldAt(s, i, j) :: Visits(s, p, i) && name == Name(s, i + 2, j)
  {
    forall name ensures name in FieldsFrom(s, p) <==>
      exists i: nat, j: nat | FieldAt(s, i, j) :: Visits(s, p, i) && name == Name(s, i + 2, j)
    {
      if name in FieldsFrom(s, p) {
        var i, j := FoundVisited(s, p, name);
      }
      if exists i: nat, j: nat | FieldAt(s, i, j) :: Visits(s, p, i) && name == Name(s, i + 2, j) {
        var i: nat, j: nat :| FieldAt(s, i, j) && Visits(s, p, i) && name == Name(s, i + 2, j);
        VisitedFound(s, p, i, j);
      }
    }
  }

  lemma FieldListSound(code: string, fields: seq<string>)
    requires forall name :: name in fields <==> name in FieldsFrom(code, 0)
    ensures forall k | 0 <= k < |fields| :: Trimmed(fields[k]) && Named(code, fields[k])
  {
    FieldsAreReferences(code, 0);
    FieldsTrimmed(code, 0);
    forall k | 0 <= k < |fields| ensures Trimmed(fields[k]) && Named(code, fields[k]) {
      assert fields[k] in FieldsFrom(code, 0);
    }
  }

  /** What a try finds and what is found after it are what is found
      from `p` on. */
  lemma FieldsAdvance(code: string, p: nat, found: set<string>)
    requires p < |code|
    ensures (found + Found(code, p)) + FieldsFrom(code, Next(code, p)) == found + FieldsFrom(code, p)
  {
    FieldsUnfold(code, p);
    UnionShift(found, Found(code, p), FieldsFrom(code, Next(code, p)));
  }

  lemma FieldsUnfold(code: string, p: nat)
    requires p < |code|
    ensures FieldsFrom(code, p) == Found(code, p) + FieldsFrom(code, Next(code, p))
  {
  }

  lemma UnionShift(a: set<string>, b: set<string>, c: set<string>)
    ensures (a + b) + c == a + (b + c)
  {
  }

  /** `extractFields(code)`: the names in ascending order, each once. */
  method ExtractFields(code: string) returns (fields: seq<string>)
    ensures StrictlySorted(fields)
    ensures forall name :: name in fields <==> name in FieldsFrom(code, 0)
    ensures forall k | 0 <= k < |fields| :: Trimmed(fields[k]) && Named(code, fields[k])
    ensures forall name :: name in fields <==>
      exists i: nat, j: nat | FieldAt(code, i, j) :: Visits(code, 0, i) && name == Name(code, i + 2, j)
  {
    var found: set<string> := {};
    var p := 0;
    while p < |code|
      invariant 0 <= p <= |code|
      invariant found + FieldsFrom(code, p) == FieldsFrom(code, 0)
      decreases |code| - p
    {
      FieldsAdvance(code, p, found);
      found, p := found + Found(code, p), Next(code, p);
    }
    assert FieldsFrom(code, p) == {};
    fields := SortedElements(found);
    FieldListSound(code, fields);
    FieldsExactly(code, 0);
  }

  /** The field values after the field list is rebuilt from `fields`:
      with no field found the old values stay as they were; otherwise
      every field found keeps the value it had, a new one starts empty,
      and a field no longer referenced is dropped. */
  function KeptValues(fields: seq<string>, previous: map<string, string>): (m: map<string, string>)
    ensures fields == [] ==> m == previous
    ensures fields != [] ==> forall f :: f in m <==> f in fields
    ensures forall f | f in m :: f in previous ==> m[f] == previous[f]
    ensures forall f | f in m && f !in previous :: m[f] == ""
  {
    if fields == [] then previous
    else map f | f in fields :: if f in previous then previous[f] else ""
  }

  /** Rebuilding twice from the same fields is rebuilding once. */
  lemma KeptValuesIdempotent(fields: seq<string>, previous: map<string, string>)
    ensures KeptValues(fields, KeptValues(fields, previous)) == KeptValues(fields, previous)
  {
  }

  /** A formula with text outside whitespace is never blank, whatever
      follows it. */
  lemma NotBlankExtended(a: string, b: string)
    requires Trim(a) != []
    ensures Trim(a + b) != []
  {
    TrimEmptyIffAllSpace(a);
    TrimEmptyIffAllSpace(a + b);
    var k :| 0 <= k < |a| && !IsSpace(a[k]);
    assert (a + b)[k] == a[k];
  }

  /** A comment at the end of the last line leaves a formula that is not
      blank and strips to the formula without it. */
  lemma TrailingCommentText(a: string, t: string)
    requires Trim(a) != [] && !HasComment(a) && a[|a| - 1] != '/'
    requires '\n' !in t
    ensures Trim(a + "//" + t) != [] && StripComments(a + "//" + t) == StripComments(a)
  {
    NotBlankExtended(a, "//" + t);
    Regroup(a, "//", t);
    CommentCutsLine(a, t);
  }

  /** A formula that is only a comment, after blanks, is not blank, and
      nothing but the blanks survives the comment stripping. */
  lemma CommentOnlyText(w: string, t: string)
    requires AllSpace(w) && '\n' !in t
    ensures Trim(w + "//" + t) != [] && StripComments(w + "//" + t) == w
  {
    var code := w + "//" + t;
    assert code[|w|] == '/' && !IsSpace('/');
    TrimEmptyIffAllSpace(code);
    assert !HasComment(w) by {
      forall k | 0 <= k < |w| ensures w[k] != '/' { assert IsSpace(w[k]); }
    }
    if w != [] {
      assert IsSpace(w[|w| - 1]);
    }
    CommentCutsLine(w, t);
  }
}
