/** The parameter hint: which function calls the cursor sits inside, and
    at which argument of each. Square brackets hide what they enclose;
    a call opens where a known name in capitals is followed by `(`, and
    every `;` moves the innermost call to its next argument. */
module ParamHint {
  import opened Wrappers
  import opened EditorText

  /** One open call: its name, the argument the cursor is in (counted
      from 0) and where the call starts. */
  datatype Frame = Frame(name: string, paramIndex: nat, start: nat)

  /** `[A-Z!]`. */
  predicate IsNameChar(c: char) { 'A' <= c <= 'Z' || c == '!' }

  /** The end of the run of name characters that starts at `j`. */
  function NameEnd(s: string, j: nat): (r: nat)
    requires j <= |s|
    ensures j <= r <= |s| && (r == |s| || !IsNameChar(s[r]))
    ensures forall k | j <= k < r :: IsNameChar(s[k])
    decreases |s| - j
  {
    if j < |s| && IsNameChar(s[j]) then NameEnd(s, j + 1) else j
  }

  /** A run of name characters from `j` that stops at `r` ends there. */
  lemma {:induction false} NameEndAt(s: string, j: nat, r: nat)
    requires j <= r <= |s| && (r == |s| || !IsNameChar(s[r]))
    requires forall k | j <= k < r :: IsNameChar(s[k])
    ensures NameEnd(s, j) == r
    decreases r - j
  {
    if j < r { NameEndAt(s, j + 1, r); }
  }

  /** The square-bracket depth after character `c`. */
  function Bracketed(depth: nat, c: char): nat {
    if c == '[' then depth + 1 else if c == ']' then Down(depth) else depth
  }

  /** The innermost call moved on to its next argument. */
  function NextParam(stack: seq<Frame>): (r: seq<Frame>)
    requires stack != []
    ensures |r| == |stack| && r[..|r| - 1] == stack[..|stack| - 1]
    ensures r[|r| - 1] == stack[|stack| - 1].(paramIndex := stack[|stack| - 1].paramIndex + 1)
  {
    var top := stack[|stack| - 1];
    stack[..|stack| - 1] + [top.(paramIndex := top.paramIndex + 1)]
  }

  /** Where a call opens at `i`: after `=` any name may follow, and inside
      another call a name may start right here; the name must be known
      and followed by `(`. The result is where the name ends. */
  function CallAt(text: string, i: nat, open: bool, functions: set<string>): (r: Option<nat>)
    requires i < |text|
    ensures r.Some? ==> i <= r.value < |text| && text[r.value] == '('
  {
    var c := text[i];
    if c == '=' || (open && IsNameChar(c)) then
      var start := if c == '=' then i + 1 else i;
      var j := NameEnd(text, start);
      if j < |text| && text[j] == '(' && text[start..j] in functions then Some(j) else None
    else None
  }

  /** The name of the call that `CallAt` found. */
  function CallName(text: string, i: nat, j: nat): string
    requires i < |text| && i <= j <= |text|
  {
    if text[i] == '=' && i < j then text[i + 1..j] else text[i..j]
  }

  /** One step of the scan at `i < |text|`: where the scan goes on, the
      open calls and the bracket depth. Inside brackets only the depth
      moves; outside, a call may open (and the scan skips to its `(`),
      a `;` moves the innermost call on and a `)` closes it. */
  function Step(text: string, i: nat, stack: seq<Frame>, depth: nat, functions: set<string>): (r: (nat, seq<Frame>, nat))
    requires i < |text|
    ensures i < r.0 <= |text|
  {
    var c := text[i];
    var d := Bracketed(depth, c);
    if d != 0 then (i + 1, stack, d)
    else
      var call := CallAt(text, i, stack != [], functions);
      var pushed := if call.Some? then stack + [Frame(CallName(text, i, call.value), 0, i)] else stack;
      var counted := if c == ';' && pushed != [] then NextParam(pushed) else pushed;
      var closed := if c == ')' && counted != [] then counted[..|counted| - 1] else counted;
      ((if call.Some? then call.value else i) + 1, closed, d)
  }

  /** The open calls after scanning `text` from `i`, given those open
      before it and the bracket depth there. */
  function ContextFrom(text: string, i: nat, stack: seq<Frame>, depth: nat, functions: set<string>): seq<Frame>
    requires i <= |text|
    decreases |text| - i
  {
    if i == |text| then stack
    else
      var r := Step(text, i, stack, depth, functions);
      ContextFrom(text, r.0, r.1, r.2, functions)
  }

  /** `getCurrentFunctionContext()` on the text before the cursor: every
      open call, outermost first, or nothing when there is none. */
  function FunctionContext(text: string, functions: set<string>): (r: Option<seq<Frame>>)
    ensures r.None? || r.value != []
  {
    var stack := ContextFrom(text, 0, [], 0, functions);
    if stack == [] then None else Some(stack)
  }

  predicate KnownFrames(stack: seq<Frame>, functions: set<string>) {
    forall k | 0 <= k < |stack| :: stack[k].name in functions
  }

  lemma CallNameKnown(text: string, i: nat, open: bool, functions: set<string>)
    requires i < |text| && CallAt(text, i, open, functions).Some?
    ensures CallName(text, i, CallAt(text, i, open, functions).value) in functions
  {
  }

  lemma StepKnown(text: string, i: nat, stack: seq<Frame>, depth: nat, functions: set<string>)
    requires i < |text| && KnownFrames(stack, functions)
    ensures KnownFrames(Step(text, i, stack, depth, functions).1, functions)
  {
    var c := text[i];
    var call := CallAt(text, i, stack != [], functions);
    if call.Some? { CallNameKnown(text, i, stack != [], functions); }
    var pushed := if call.Some? then stack + [Frame(CallName(text, i, call.value), 0, i)] else stack;
    assert KnownFrames(pushed, functions);
    var counted := if c == ';' && pushed != [] then NextParam(pushed) else pushed;
    assert KnownFrames(counted, functions);
  }

  /** Every call the hint shows is a known function. */
  lemma {:induction false} ContextKnown(text: string, i: nat, stack: seq<Frame>, depth: nat, functions: set<string>)
    requires i <= |text| && KnownFrames(stack, functions)
    ensures KnownFrames(ContextFrom(text, i, stack, depth, functions), functions)
    decreases |text| - i
  {
    if i < |text| {
      var r := Step(text, i, stack, depth, functions);
      StepKnown(text, i, stack, depth, functions);
      ContextKnown(text, r.0, r.1, r.2, functions);
    }
  }

  /** Outside brackets, a character that is not a parenthesis or a
      bracket opens and closes nothing: a `;` moves the innermost call
      one argument on and anything else leaves the calls as they are. */
  lemma PlainStep(text: string, i: nat, outer: seq<Frame>, top: Frame, functions: set<string>)
    requires i < |text| && text[i] !in "()[]"
    requires forall k | i < k < |text| :: text[k] !in "()[]"
    ensures Step(text, i, outer + [top], 0, functions)
         == (i + 1, outer + [top.(paramIndex := top.paramIndex + if text[i] == ';' then 1 else 0)], 0)
  {
    var c := text[i];
    var call := CallAt(text, i, true, functions);
    if c == '=' || IsNameChar(c) {
      var start := if c == '=' then i + 1 else i;
      var j := NameEnd(text, start);
      assert j < |text| ==> text[j] !in "()[]";
    }
    assert call.None?;
  }

  /** The scan from `i` is the scan from where its first step leaves it. */
  lemma ContextStep(text: string, i: nat, stack: seq<Frame>, depth: nat, functions: set<string>)
    requires i < |text|
    ensures var r := Step(text, i, stack, depth, functions);
      ContextFrom(text, i, stack, depth, functions) == ContextFrom(text, r.0, r.1, r.2, functions)
  {
  }

  lemma CountOfFrom(s: string, i: nat, x: char)
    requires i < |s|
    ensures CountOf(s[i..], x) == (if s[i] == x then 1 else 0) + CountOf(s[i + 1..], x)
  {
    assert s[i..] == [s[i]] + s[i + 1..];
    CountOfConcat([s[i]], s[i + 1..], x);
    assert [s[i]][..0] == [];
  }

  /** Text without parentheses or brackets opens and closes nothing: each
      `;` in it moves the innermost call one argument on. */
  lemma {:induction false} ArgumentsCounted(text: string, i: nat, outer: seq<Frame>, top: Frame, functions: set<string>)
    requires i <= |text|
    requires forall k | i <= k < |text| :: text[k] !in "()[]"
    ensures ContextFrom(text, i, outer + [top], 0, functions)
         == outer + [top.(paramIndex := top.paramIndex + CountOf(text[i..], ';'))]
    decreases |text| - i
  {
    if i == |text| {
      assert text[i..] == [];
    } else {
      var c := text[i];
      var top' := top.(paramIndex := top.paramIndex + if c == ';' then 1 else 0);
      PlainStep(text, i, outer, top, functions);
      ContextStep(text, i, outer + [top], 0, functions);
      ArgumentsCounted(text, i + 1, outer, top', functions);
      CountOfFrom(text, i, ';');
    }
  }

  /** A text that starts with `=F(` for a known name `F` opens that call
      and goes on after the `(`. */
  lemma OpensCall(text: string, f: string, functions: set<string>)
    requires f in functions && forall k | 0 <= k < |f| :: IsNameChar(f[k])
    requires |f| + 2 <= |text| && text[0] == '=' && text[1..|f| + 1] == f && text[|f| + 1] == '('
    ensures ContextFrom(text, 0, [], 0, functions) == ContextFrom(text, |f| + 2, [Frame(f, 0, 0)], 0, functions)
  {
    assert forall k | 1 <= k < |f| + 1 :: text[k] == text[1..|f| + 1][k - 1];
    NameEndAt(text, 1, |f| + 1);
    assert CallAt(text, 0, false, functions) == Some(|f| + 1);
    assert Bracketed(0, '=') == 0;
    assert CallName(text, 0, |f| + 1) == f;
    var pushed: seq<Frame> := [] + [Frame(f, 0, 0)];
    assert pushed == [Frame(f, 0, 0)];
    assert Step(text, 0, [], 0, functions) == (|f| + 2, pushed, 0);
  }

  /** After `=F(` and arguments with no parentheses or brackets, `F` is
      the one open call, at the argument the `;` count gives. */
  lemma ContextInsideCall(text: string, f: string, functions: set<string>)
    requires f in functions && forall k | 0 <= k < |f| :: IsNameChar(f[k])
    requires |f| + 2 <= |text| && text[0] == '=' && text[1..|f| + 1] == f && text[|f| + 1] == '('
    requires forall k | |f| + 2 <= k < |text| :: text[k] !in "()[]"
    ensures ContextFrom(text, 0, [], 0, functions) == [Frame(f, CountOf(text[|f| + 2..], ';'), 0)]
  {
    var open := Frame(f, 0, 0);
    var n := CountOf(text[|f| + 2..], ';');
    OpensCall(text, f, functions);
    ArgumentsCounted(text, |f| + 2, [], open, functions);
    assert [] + [open] == [open];
    assert [] + [open.(paramIndex := 0 + n)] == [Frame(f, n, 0)];
  }

  /** Right after `=F(` and some arguments, the hint shows `F` at the
      argument the `;` count gives ... */
  lemma HintInsideCall(f: string, args: string, functions: set<string>)
    requires f in functions && forall k | 0 <= k < |f| :: IsNameChar(f[k])
    requires forall k | 0 <= k < |args| :: args[k] !in "()[]"
    ensures FunctionContext("=" + f + "(" + args, functions) == Some([Frame(f, CountOf(args, ';'), 0)])
  {
    var text := "=" + f + "(" + args;
    assert text[1..|f| + 1] == f;
    assert text[|f| + 2..] == args;
    ContextInsideCall(text, f, functions);
  }

  /** ... and the `)` that closes the call ends the hint. */
  lemma HintAfterCall(f: string, args: string, functions: set<string>)
    requires f in functions && forall k | 0 <= k < |f| :: IsNameChar(f[k])
    requires forall k | 0 <= k < |args| :: args[k] !in "()[]"
    ensures FunctionContext("=" + f + "(" + args + ")", functions).None?
  {
    var text := "=" + f + "(" + args + ")";
    assert text[1..|f| + 1] == f;
    assert forall k | |f| + 2 <= k < |text| - 1 :: text[k] == args[k - |f| - 2];
    OpensCall(text, f, functions);
    ClosedAfter(text, |f| + 2, Frame(f, 0, 0), functions);
  }

  /** A `)` closes the innermost call even when it closes a plain
      parenthesis: in `=F((b)` the call to `F` is still open, yet no hint
      is left. */
  lemma PlainParenEndsHint(f: string, b: string, functions: set<string>)
    requires f in functions && forall k | 0 <= k < |f| :: IsNameChar(f[k])
    requires forall k | 0 <= k < |b| :: b[k] !in "()[]"
    ensures FunctionContext("=" + f + "((" + b + ")", functions).None?
  {
    var text := "=" + f + "((" + b + ")";
    assert text[1..|f| + 1] == f;
    assert text[|f| + 1] == '(' && text[|f| + 2] == '(';
    assert forall k | |f| + 3 <= k < |text| - 1 :: text[k] == b[k - |f| - 3];
    OpensCall(text, f, functions);
    assert CallAt(text, |f| + 2, true, functions).None?;
    assert Step(text, |f| + 2, [Frame(f, 0, 0)], 0, functions) == (|f| + 3, [Frame(f, 0, 0)], 0);
    ClosedAfter(text, |f| + 3, Frame(f, 0, 0), functions);
  }

  /** A call whose arguments hold no parentheses or brackets is closed by
      the `)` that ends the text. */
  lemma {:induction false} ClosedAfter(text: string, i: nat, top: Frame, functions: set<string>)
    requires i < |text| && text[|text| - 1] == ')'
    requires forall k | i <= k < |text| - 1 :: text[k] !in "()[]"
    ensures ContextFrom(text, i, [top], 0, functions) == []
    decreases |text| - i
  {
    if i == |text| - 1 {
      assert CallAt(text, i, true, functions).None?;
    } else {
      var c := text[i];
      var call := CallAt(text, i, true, functions);
      if c == '=' || IsNameChar(c) {
        var start := if c == '=' then i + 1 else i;
        var j := NameEnd(text, start);
        assert j < |text| ==> text[j] != '(';
      }
      assert call.None?;
      var top' := top.(paramIndex := top.paramIndex + if c == ';' then 1 else 0);
      assert Step(text, i, [top], 0, functions) == (i + 1, [top'], 0);
      ClosedAfter(text, i + 1, top', functions);
    }
  }

  /** One step of the scan, reading a name character by character. */
  method ScanStep(text: string, i: nat, stack: seq<Frame>, depth: nat, functions: set<string>)
      returns (next: nat, stack': seq<Frame>, depth': nat)
    requires i < |text|
    ensures (next, stack', depth') == Step(text, i, stack, depth, functions)
  {
    var c := text[i];
    next, stack', depth' := i + 1, stack, Bracketed(depth, c);
    if depth' == 0 {
      if c == '=' || (stack != [] && IsNameChar(c)) {
        var start := if c == '=' then i + 1 else i;
        var name := "";
        var j := start;
        while j < |text| && IsNameChar(text[j])
          invariant start <= j <= |text| && name == text[start..j]
          invariant forall k | start <= k < j :: IsNameChar(text[k])
          decreases |text| - j
        {
          name := name + [text[j]];
          j := j + 1;
        }
        NameEndAt(text, start, j);
        if j < |text| && text[j] == '(' && name in functions {
          stack' := stack' + [Frame(name, 0, i)];
          next := j + 1;
        }
      }
      if c == ';' && stack' != [] {
        stack' := NextParam(stack');
      }
      if c == ')' && stack' != [] {
        stack' := stack'[..|stack'| - 1];
      }
    }
  }

  /** `getCurrentFunctionContext()`: one pass over the text before the
      cursor. */
  method GetCurrentFunctionContext(text: string, functions: set<string>) returns (r: Option<seq<Frame>>)
    ensures r == FunctionContext(text, functions)
  {
    var stack: seq<Frame> := [];
    var depth: nat := 0;
    var i := 0;
    while i < |text|
      invariant 0 <= i <= |text|
      invariant ContextFrom(text, i, stack, depth, functions) == ContextFrom(text, 0, [], 0, functions)
      decreases |text| - i
    {
      i, stack, depth := ScanStep(text, i, stack, depth, functions);
    }
    r := if stack == [] then None else Some(stack);
  }
}
