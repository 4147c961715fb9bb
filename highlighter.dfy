/** The editor's syntax highlighter: the formula cut into coloured tokens.
    The cut is lossless, and every `(` that opens a known function is
    paired with the `)` that closes it through a stack of counters, one
    per open function, each counting the parentheses open inside it. */
module Highlighter {
  import opened JsString

  datatype HKind =
    | Comment | Whitespace | Str | Number | Function | Identifier
    | Parenthesis | Operator | Bracket | Other

  datatype HToken = HToken(kind: HKind, value: string)

  // ---------------------------------------------------------------------
  // character classes

  predicate IsNumberChar(c: char) { IsDigit(c) || c == '.' }

  predicate IsWordStart(c: char) { IsAsciiLetter(c) || c == '_' }

  predicate IsOperator(c: char) { c in "+-*/=<>&|;," }

  /** Every character but `q`. */
  function Unlike(q: char): char -> bool { c => c != q }

  /** The end of the run of characters satisfying `p` that starts at `i`. */
  function RunEnd(s: string, i: nat, p: char -> bool): (r: nat)
    requires i <= |s|
    ensures i <= r <= |s| && (r == |s| || !p(s[r]))
    ensures forall k | i <= k < r :: p(s[k])
    decreases |s| - i
  {
    if i < |s| && p(s[i]) then RunEnd(s, i + 1, p) else i
  }

  lemma {:induction false} RunEndAt(s: string, i: nat, p: char -> bool, r: nat)
    requires i <= r <= |s| && (r == |s| || !p(s[r]))
    requires forall k | i <= k < r :: p(s[k])
    ensures RunEnd(s, i, p) == r
    decreases r - i
  {
    if i < r { RunEndAt(s, i + 1, p, r); }
  }

  // ---------------------------------------------------------------------
  // the function stack

  /** Every open function has at least one parenthesis open, and an inner
      function never has more open than the one around it. */
  predicate Descending(stack: seq<int>) {
    && (forall k | 0 <= k < |stack| :: stack[k] >= 1)
    && (forall j, k | 0 <= j < k < |stack| :: stack[j] >= stack[k])
  }

  /** `(`: one more parenthesis open inside every open function. */
  function Opened(stack: seq<int>): (r: seq<int>)
    ensures |r| == |stack| && forall k | 0 <= k < |r| :: r[k] == stack[k] + 1
  {
    seq(|stack|, k requires 0 <= k < |stack| => stack[k] + 1)
  }

  /** `)`: counting down from the innermost function, the first one whose
      count reaches 0 is closed and removed, and the search stops there. */
  function CloseFrom(stack: seq<int>, j: int): (r: (bool, seq<int>))
    requires -1 <= j < |stack|
    decreases j + 1
  {
    if j < 0 then (false, stack)
    else
      var s := stack[j := stack[j] - 1];
      if s[j] == 0 then (true, s[..j] + s[j + 1..]) else CloseFrom(s, j - 1)
  }

  function Closed(stack: seq<int>): (bool, seq<int>) {
    CloseFrom(stack, |stack| - 1)
  }

  /** Every count down to index `j` at least 2: the search closes nothing
      and lowers each of them by one. */
  lemma {:induction false} CloseFromLowers(stack: seq<int>, j: int)
    requires -1 <= j < |stack|
    requires forall k | 0 <= k <= j :: stack[k] >= 2
    ensures CloseFrom(stack, j).0 == false
    ensures CloseFrom(stack, j).1
         == seq(|stack|, k requires 0 <= k < |stack| => if k <= j then stack[k] - 1 else stack[k])
    decreases j + 1
  {
    if j < 0 {
      assert stack == seq(|stack|, k requires 0 <= k < |stack| => stack[k]);
    } else {
      var s := stack[j := stack[j] - 1];
      CloseFromLowers(s, j - 1);
    }
  }

  /** On a descending stack a `)` closes a function exactly when the
      innermost one has one parenthesis open: then that function is
      removed; otherwise every count goes down by one. */
  lemma CloseInnermost(stack: seq<int>)
    requires Descending(stack)
    ensures var (closing, rest) := Closed(stack);
      && (closing <==> stack != [] && stack[|stack| - 1] == 1)
      && (closing ==> rest == stack[..|stack| - 1])
      && (!closing ==> rest == seq(|stack|, k requires 0 <= k < |stack| => stack[k] - 1))
  {
    var n := |stack|;
    if n > 0 && stack[n - 1] == 1 {
      var s := stack[n - 1 := 0];
      assert s[..n - 1] + s[n..] == stack[..n - 1];
    } else {
      CloseFromLowers(stack, n - 1);
    }
  }

  /** Opening a function, a parenthesis and closing one all keep the stack
      descending. */
  lemma DescendingKept(stack: seq<int>)
    requires Descending(stack)
    ensures Descending(stack + [1])
    ensures Descending(Opened(stack))
    ensures Descending(Closed(stack).1)
  {
    CloseInnermost(stack);
    var s := stack + [1];
    assert forall k | 0 <= k < |stack| :: s[k] == stack[k];
  }

  // ---------------------------------------------------------------------
  // one token

  /** A name at `i..e` that may be a function: it is one when `(` follows
      and the name in capitals is known; then the `(` belongs to it and
      the function is pushed with one parenthesis open. */
  function Word(code: string, i: nat, e: nat, stack: seq<int>, functions: set<string>): (r: (HToken, nat, seq<int>))
    requires i < e <= |code|
    ensures i < r.1 <= |code| && r.0.value == code[i..r.1]
  {
    if e < |code| && code[e] == '(' && ToUpper(code[i..e]) in functions then
      (HToken(Function, code[i..e + 1]), e + 1, stack + [1])
    else (HToken(Identifier, code[i..e]), e, stack)
  }

  /** A comment, a string, or a run of spaces, digits or name characters
      starts at `i`. */
  predicate StartsRun(code: string, i: nat)
    requires i < |code|
  {
    var c := code[i];
    || (c == '/' && i + 1 < |code| && code[i + 1] == '/')
    || IsSpace(c) || c == '"' || c == '\'' || IsDigit(c)
    || (c == '!' && i + 1 < |code| && IsAsciiLetter(code[i + 1]))
    || IsWordStart(c)
  }

  /** The token that starts at `i`, where the next one starts, and the
      function stack after it. */
  function Scan(code: string, i: nat, stack: seq<int>, functions: set<string>): (r: (HToken, nat, seq<int>))
    requires i < |code|
    ensures i < r.1 <= |code| && r.0.value == code[i..r.1]
  {
    if StartsRun(code, i) then ScanRun(code, i, stack, functions) else ScanSingle(code, i, stack)
  }

  /** A token of several characters: the branches of the source's loop
      that read on while the characters fit. */
  function ScanRun(code: string, i: nat, stack: seq<int>, functions: set<string>): (r: (HToken, nat, seq<int>))
    requires i < |code| && StartsRun(code, i)
    ensures i < r.1 <= |code| && r.0.value == code[i..r.1]
  {
    var c := code[i];
    if c == '/' && i + 1 < |code| && code[i + 1] == '/' then
      var e := RunEnd(code, i, Unlike('\n'));
      (HToken(Comment, code[i..e]), e, stack)
    else if IsSpace(c) then
      var e := RunEnd(code, i, IsSpace);
      (HToken(Whitespace, code[i..e]), e, stack)
    else if c == '"' || c == '\'' then
      var e := RunEnd(code, i + 1, Unlike(c));
      var stop := if e < |code| then e + 1 else e;
      (HToken(Str, code[i..stop]), stop, stack)
    else if IsDigit(c) then
      var e := RunEnd(code, i, IsNumberChar);
      (HToken(Number, code[i..e]), e, stack)
    else if c == '!' && i + 1 < |code| && IsAsciiLetter(code[i + 1]) then
      Word(code, i, RunEnd(code, i + 1, IsWordChar), stack, functions)
    else
      Word(code, i, RunEnd(code, i, IsWordChar), stack, functions)
  }

  /** A token of one character. */
  function ScanSingle(code: string, i: nat, stack: seq<int>): (r: (HToken, nat, seq<int>))
    requires i < |code|
    ensures r.1 == i + 1 && r.0.value == code[i..r.1]
  {
    var c := code[i];
    if c == '(' then
      (HToken(Parenthesis, "("), i + 1, Opened(stack))
    else if c == ')' then
      var (closing, rest) := Closed(stack);
      (HToken(if closing then Function else Parenthesis, ")"), i + 1, rest)
    else if IsOperator(c) then
      (HToken(Operator, [c]), i + 1, stack)
    else if c == '[' || c == ']' then
      (HToken(Bracket, [c]), i + 1, stack)
    else
      (HToken(Other, [c]), i + 1, stack)
  }

  /** The tokens from `i` on. */
  function HighlightFrom(code: string, i: nat, stack: seq<int>, functions: set<string>): seq<HToken>
    requires i <= |code|
    decreases |code| - i
  {
    if i == |code| then []
    else
      var (t, next, stack') := Scan(code, i, stack, functions);
      [t] + HighlightFrom(code, next, stack', functions)
  }

  /** `tokenize(code)`. */
  function Highlight(code: string, functions: set<string>): seq<HToken> {
    HighlightFrom(code, 0, [], functions)
  }

  // ---------------------------------------------------------------------
  // properties

  /** The tokens' text, one after another. */
  function Joined(tokens: seq<HToken>): string {
    if tokens == [] then [] else tokens[0].value + Joined(tokens[1..])
  }

  /** The tokens spell out the code: nothing is dropped, added or moved. */
  lemma {:induction false} HighlightLossless(code: string, i: nat, stack: seq<int>, functions: set<string>)
    requires i <= |code|
    ensures Joined(HighlightFrom(code, i, stack, functions)) == code[i..]
    decreases |code| - i
  {
    if i < |code| {
      var r := Scan(code, i, stack, functions);
      var rest := HighlightFrom(code, r.1, r.2, functions);
      HighlightStep(code, i, stack, functions);
      HighlightLossless(code, r.1, r.2, functions);
      JoinedCons(r.0, rest);
      SliceJoin(code, i, r.1);
    } else {
      assert HighlightFrom(code, i, stack, functions) == [];
    }
  }

  lemma JoinedCons(t: HToken, rest: seq<HToken>)
    ensures Joined([t] + rest) == t.value + Joined(rest)
  {
    assert ([t] + rest)[1..] == rest;
  }

  lemma SliceJoin(s: string, i: nat, j: nat)
    requires i <= j <= |s|
    ensures s[i..] == s[i..j] + s[j..]
  {
  }

  lemma HighlightStep(code: string, i: nat, stack: seq<int>, functions: set<string>)
    requires i < |code|
    ensures var r := Scan(code, i, stack, functions);
      HighlightFrom(code, i, stack, functions) == [r.0] + HighlightFrom(code, r.1, r.2, functions)
  {
  }

  /** What a token of each kind looks like. */
  predicate Shaped(t: HToken, functions: set<string>) {
    var v := t.value;
    v != [] &&
    match t.kind
    case Comment => |v| >= 2 && v[0] == '/' && v[1] == '/' && forall k | 0 <= k < |v| :: v[k] != '\n'
    case Whitespace => forall k | 0 <= k < |v| :: IsSpace(v[k])
    case Str => (v[0] == '"' || v[0] == '\'') && forall k | 1 <= k < |v| - 1 :: v[k] != v[0]
    case Number => IsDigit(v[0]) && forall k | 0 <= k < |v| :: IsNumberChar(v[k])
    case Function =>
      v == ")" || (|v| >= 2 && v[|v| - 1] == '(' && ToUpper(v[..|v| - 1]) in functions)
    case Identifier =>
      && (IsWordStart(v[0]) || (v[0] == '!' && |v| >= 2 && IsAsciiLetter(v[1])))
      && forall k | 1 <= k < |v| :: IsWordChar(v[k])
    case Parenthesis => v == "(" || v == ")"
    case Operator => |v| == 1 && IsOperator(v[0])
    case Bracket => v == "[" || v == "]"
    case Other => |v| == 1
  }

  lemma WordShaped(code: string, i: nat, e: nat, stack: seq<int>, functions: set<string>)
    requires i < e <= |code| && (IsWordStart(code[i]) || (code[i] == '!' && i + 1 < e && IsAsciiLetter(code[i + 1])))
    requires forall k | i < k < e :: IsWordChar(code[k])
    ensures Shaped(Word(code, i, e, stack, functions).0, functions)
  {
    if e < |code| && code[e] == '(' && ToUpper(code[i..e]) in functions {
      var v := code[i..e + 1];
      assert v[..|v| - 1] == code[i..e];
      assert |v| >= 2 && v[|v| - 1] == '(';
    } else {
      var v := code[i..e];
      assert v[0] == code[i];
      forall k | 1 <= k < |v| ensures IsWordChar(v[k]) {
        assert v[k] == code[i + k];
      }
      if code[i] == '!' {
        assert v[1] == code[i + 1];
      }
    }
  }

  /** Every token has the shape of its kind. */
  lemma ScanShaped(code: string, i: nat, stack: seq<int>, functions: set<string>)
    requires i < |code|
    ensures Shaped(Scan(code, i, stack, functions).0, functions)
  {
    var c := code[i];
    var (t, next, _) := Scan(code, i, stack, functions);
    assert forall k | 0 <= k < next - i :: t.value[k] == code[i + k];
    if c == '/' && i + 1 < |code| && code[i + 1] == '/' {
    } else if IsSpace(c) {
    } else if c == '"' || c == '\'' {
    } else if IsDigit(c) {
    } else if c == '!' && i + 1 < |code| && IsAsciiLetter(code[i + 1]) {
      WordShaped(code, i, RunEnd(code, i + 1, IsWordChar), stack, functions);
    } else if IsWordStart(c) {
      WordShaped(code, i, RunEnd(code, i, IsWordChar), stack, functions);
    }
  }

  /** All tokens are well shaped and the function stack stays descending. */
  lemma {:induction false} HighlightShaped(code: string, i: nat, stack: seq<int>, functions: set<string>)
    requires i <= |code| && Descending(stack)
    ensures forall k | 0 <= k < |HighlightFrom(code, i, stack, functions)| ::
      Shaped(HighlightFrom(code, i, stack, functions)[k], functions)
    decreases |code| - i
  {
    if i < |code| {
      var (t, next, stack') := Scan(code, i, stack, functions);
      ScanShaped(code, i, stack, functions);
      ScanDescending(code, i, stack, functions);
      HighlightShaped(code, next, stack', functions);
      var ts := HighlightFrom(code, i, stack, functions);
      assert ts == [t] + HighlightFrom(code, next, stack', functions);
    }
  }

  lemma ScanDescending(code: string, i: nat, stack: seq<int>, functions: set<string>)
    requires i < |code| && Descending(stack)
    ensures Descending(Scan(code, i, stack, functions).2)
  {
    DescendingKept(stack);
  }

  /** `tokenize(code)` spells out the code in well-shaped tokens. */
  lemma HighlightSpec(code: string, functions: set<string>)
    ensures Joined(Highlight(code, functions)) == code
    ensures forall k | 0 <= k < |Highlight(code, functions)| :: Shaped(Highlight(code, functions)[k], functions)
  {
    HighlightLossless(code, 0, [], functions);
    assert code[0..] == code;
    HighlightShaped(code, 0, [], functions);
  }

  /** A known function whose arguments hold no parentheses is coloured as
      one function: its `name(` token and its `)` token. */
  lemma CallHighlighted(name: string, args: string, functions: set<string>)
    requires name != [] && IsWordStart(name[0]) && forall k | 0 <= k < |name| :: IsWordChar(name[k])
    requires ToUpper(name) in functions
    requires forall k | 0 <= k < |args| :: args[k] !in "()\"'/"
    ensures var ts := Highlight(name + "(" + args + ")", functions);
      && ts[0] == HToken(Function, name + "(")
      && ts[|ts| - 1] == HToken(Function, ")")
  {
    var code := name + "(" + args + ")";
    CallOpens(name, args, functions);
    ArgsPlain(name, args);
    FirstThenLast(code, functions, HToken(Function, name + "("), |name| + 1);
  }

  /** The first token of the code opens a function, and the tokens after
      it end with that function's `)`. */
  lemma FirstThenLast(code: string, functions: set<string>, first: HToken, next: nat)
    requires next < |code| && code[|code| - 1] == ')'
    requires Scan(code, 0, [], functions) == (first, next, [1])
    requires forall k | next <= k < |code| - 1 :: code[k] !in "()\"'/"
    ensures var ts := Highlight(code, functions);
      ts[0] == first && ts[|ts| - 1] == HToken(Function, ")")
  {
    HighlightStep(code, 0, [], functions);
    LastCloses(code, next, [1], functions);
    ConsEnds(first, HighlightFrom(code, next, [1], functions));
  }

  lemma ConsEnds(t: HToken, rest: seq<HToken>)
    requires rest != []
    ensures ([t] + rest)[0] == t && ([t] + rest)[|rest|] == rest[|rest| - 1]
  {
  }

  lemma ArgsPlain(name: string, args: string)
    requires forall k | 0 <= k < |args| :: args[k] !in "()\"'/"
    ensures var code := name + "(" + args + ")";
      forall k | |name| + 1 <= k < |code| - 1 :: code[k] !in "()\"'/"
  {
    var code := name + "(" + args + ")";
    forall k | |name| + 1 <= k < |code| - 1 ensures code[k] !in "()\"'/" {
      assert code[k] == args[k - |name| - 1];
    }
  }

  /** The first token of such a call is its `name(`, with the function
      pushed. */
  lemma CallOpens(name: string, args: string, functions: set<string>)
    requires name != [] && IsWordStart(name[0]) && forall k | 0 <= k < |name| :: IsWordChar(name[k])
    requires ToUpper(name) in functions
    ensures Scan(name + "(" + args + ")", 0, [], functions) == (HToken(Function, name + "("), |name| + 1, [1])
  {
    var code := name + "(" + args + ")";
    assert forall k | 0 <= k < |name| :: code[k] == name[k];
    RunEndAt(code, 0, IsWordChar, |name|);
    assert code[0] == name[0] && !IsSpace(code[0]) && !IsDigit(code[0]);
    assert code[0..|name|] == name && code[0..|name| + 1] == name + "(";
    assert code[|name|] == '(' && [] + [1] == [1];
    assert Word(code, 0, |name|, [], functions) == (HToken(Function, name + "("), |name| + 1, [1]);
  }

  /** From `i`, with no parenthesis before the final `)` and the innermost
      function's count at 1, the last token is that function's `)`. */
  lemma {:induction false} LastCloses(code: string, i: nat, stack: seq<int>, functions: set<string>)
    requires i < |code| && code[|code| - 1] == ')'
    requires forall k | i <= k < |code| - 1 :: code[k] !in "()\"'/"
    requires Descending(stack) && stack != [] && stack[|stack| - 1] == 1
    ensures var ts := HighlightFrom(code, i, stack, functions);
      ts != [] && ts[|ts| - 1] == HToken(Function, ")")
    decreases |code| - i
  {
    var (t, next, stack') := Scan(code, i, stack, functions);
    if i == |code| - 1 {
      CloseInnermost(stack);
    } else {
      PlainScan(code, i, stack, functions);
      LastCloses(code, next, stack', functions);
      var ts := HighlightFrom(code, i, stack, functions);
      assert ts == [t] + HighlightFrom(code, next, stack', functions);
    }
  }

  /** Before the last character, a token over text with no parentheses
      leaves the stack alone (a name there is not followed by `(`). */
  lemma PlainScan(code: string, i: nat, stack: seq<int>, functions: set<string>)
    requires i < |code| - 1 && code[|code| - 1] == ')'
    requires forall k | i <= k < |code| - 1 :: code[k] !in "()\"'/"
    ensures var r := Scan(code, i, stack, functions); r.2 == stack && r.1 < |code|
  {
    var c := code[i];
    if c == '!' && i + 1 < |code| && IsAsciiLetter(code[i + 1]) {
      var e := RunEnd(code, i + 1, IsWordChar);
      assert e < |code| ==> code[e] != '(';
    } else if IsWordStart(c) {
      var e := RunEnd(code, i, IsWordChar);
      assert e < |code| ==> code[e] != '(';
    }
  }

  // ---------------------------------------------------------------------
  // the editor's loops

  /** One `while` loop of the tokenizer: the characters satisfying `p`
      from `i` on, one at a time. */
  method ReadRun(code: string, i: nat, p: char -> bool) returns (value: string, j: nat)
    requires i <= |code|
    ensures j == RunEnd(code, i, p) && value == code[i..j]
  {
    value, j := "", i;
    while j < |code| && p(code[j])
      invariant i <= j <= |code| && value == code[i..j]
      invariant forall k | i <= k < j :: p(code[k])
      decreases |code| - j
    {
      value := value + [code[j]];
      j := j + 1;
    }
    RunEndAt(code, i, p, j);
  }

  /** `(`: every counter on the stack goes up by one. */
  method OpenAll(stack: seq<int>) returns (r: seq<int>)
    ensures r == Opened(stack)
  {
    r := stack;
    var j := 0;
    while j < |r|
      invariant 0 <= j <= |r| == |stack|
      invariant forall k | 0 <= k < |r| :: r[k] == if k < j then stack[k] + 1 else stack[k]
    {
      r := r[j := r[j] + 1];
      j := j + 1;
    }
  }

  /** `)`: the counters from the innermost outward go down by one until
      one reaches 0; that one is removed. */
  method CloseOne(stack: seq<int>) returns (closing: bool, r: seq<int>)
    ensures (closing, r) == Closed(stack)
  {
    r := stack;
    closing := false;
    var j := |r| - 1;
    while j >= 0
      invariant -1 <= j < |r| == |stack|
      invariant CloseFrom(r, j) == Closed(stack)
      decreases j + 1
    {
      r := r[j := r[j] - 1];
      if r[j] == 0 {
        closing := true;
        r := r[..j] + r[j + 1..];
        return;
      }
      j := j - 1;
    }
  }

  /** The name token at `i`, read up to `e`: a function with its `(` when
      one follows and the name is known. */
  method ReadWord(code: string, i: nat, value: string, e: nat, stack: seq<int>, functions: set<string>)
      returns (t: HToken, next: nat, stack': seq<int>)
    requires i < e <= |code| && value == code[i..e]
    ensures (t, next, stack') == Word(code, i, e, stack, functions)
  {
    if e < |code| && code[e] == '(' && ToUpper(value) in functions {
      t, next, stack' := HToken(Function, value + "("), e + 1, stack + [1];
      assert value + "(" == code[i..e + 1];
    } else {
      t, next, stack' := HToken(Identifier, value), e, stack;
    }
  }

  /** One pass of the tokenizer's outer loop. */
  method ScanToken(code: string, i: nat, stack: seq<int>, functions: set<string>)
      returns (t: HToken, next: nat, stack': seq<int>)
    requires i < |code|
    ensures (t, next, stack') == Scan(code, i, stack, functions)
  {
    if StartsRun(code, i) {
      t, next, stack' := ReadRunToken(code, i, stack, functions);
    } else {
      t, next, stack' := ReadSingle(code, i, stack);
    }
  }

  method ReadRunToken(code: string, i: nat, stack: seq<int>, functions: set<string>)
      returns (t: HToken, next: nat, stack': seq<int>)
    requires i < |code| && StartsRun(code, i)
    ensures (t, next, stack') == ScanRun(code, i, stack, functions)
  {
    var c := code[i];
    stack' := stack;
    if c == '/' && i + 1 < |code| && code[i + 1] == '/' {
      var value;
      value, next := ReadRun(code, i, Unlike('\n'));
      t := HToken(Comment, value);
    } else if IsSpace(c) {
      var value;
      value, next := ReadRun(code, i, IsSpace);
      t := HToken(Whitespace, value);
    } else if c == '"' || c == '\'' {
      var value, e := ReadRun(code, i + 1, Unlike(c));
      value := [c] + value;
      assert value == code[i..e];
      next := e;
      if e < |code| {
        value := value + [c];
        next := e + 1;
        assert value == code[i..e + 1];
      }
      t := HToken(Str, value);
    } else if IsDigit(c) {
      var value;
      value, next := ReadRun(code, i, IsNumberChar);
      t := HToken(Number, value);
    } else if c == '!' && i + 1 < |code| && IsAsciiLetter(code[i + 1]) {
      var value, e := ReadRun(code, i + 1, IsWordChar);
      assert [c] + value == code[i..e];
      t, next, stack' := ReadWord(code, i, [c] + value, e, stack, functions);
    } else {
      var value, e := ReadRun(code, i, IsWordChar);
      t, next, stack' := ReadWord(code, i, value, e, stack, functions);
    }
  }

  method ReadSingle(code: string, i: nat, stack: seq<int>) returns (t: HToken, next: nat, stack': seq<int>)
    requires i < |code|
    ensures (t, next, stack') == ScanSingle(code, i, stack)
  {
    var c := code[i];
    stack', next := stack, i + 1;
    if c == '(' {
      stack' := OpenAll(stack);
      t := HToken(Parenthesis, "(");
    } else if c == ')' {
      var closing;
      closing, stack' := CloseOne(stack);
      t := HToken(if closing then Function else Parenthesis, ")");
    } else if IsOperator(c) {
      t := HToken(Operator, [c]);
    } else if c == '[' || c == ']' {
      t := HToken(Bracket, [c]);
    } else {
      t := HToken(Other, [c]);
    }
  }

  /** `tokenize(code)`. */
  method Tokenize(code: string, functions: set<string>) returns (tokens: seq<HToken>)
    ensures tokens == Highlight(code, functions)
    ensures Joined(tokens) == code
    ensures forall k | 0 <= k < |tokens| :: Shaped(tokens[k], functions)
  {
    tokens := [];
    var stack: seq<int> := [];
    var i := 0;
    while i < |code|
      invariant 0 <= i <= |code|
      invariant tokens + HighlightFrom(code, i, stack, functions) == Highlight(code, functions)
      decreases |code| - i
    {
      var t, next, stack' := ScanToken(code, i, stack, functions);
      HighlightStep(code, i, stack, functions);
      tokens := tokens + [t];
      i, stack := next, stack';
    }
    assert tokens + [] == tokens;
    HighlightSpec(code, functions);
    HighlightShaped(code, 0, [], functions);
  }
}
