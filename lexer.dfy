/** The formula compiler's tokenizer (`compilerTokenize`): a scan over the
    formula text that skips blanks and `//` comments and emits field,
    string, number, function-marker, punctuation, operator and text tokens.

    The scan can make no progress: on a `[` that does not open `[[`, or on
    a `]` outside a field, the text branch reads nothing and the loop would
    spin forever. The model reports that as `Stuck` at the position where
    the scan stops. */
module Lexer {
  import opened Wrappers
  import opened JsString
  import opened Numbers

  datatype Token =
    | FieldTok(name: string)
    | StringTok(text: string)
    | NumberTok(value: Decimal)
    | DateTok(text: string)
    | FunctionTok(name: string)
    | LParen
    | RParen
    | Semicolon
    | Comma
    | OperatorTok(op: char)
    | TextTok(text: string)

  /** The tokens of the whole formula, or the position where the scan
      stops advancing. */
  datatype LexResult = Tokens(tokens: seq<Token>) | Stuck(pos: nat)

  /** One pass of the scanning loop: the position it moves to and the
      token it emits, if any; or no progress at all. */
  datatype Step = Advance(next: nat, token: Option<Token>) | NoProgress

  // ---------------------------------------------------------------------
  // character classes the inner loops scan over

  datatype CharClass = NotNewline | NotSingleQuote | NumberChar | WordChar | TextChar

  /** `( ) ; , =`, the brackets and blanks: the characters that end a text run. */
  predicate IsDelimiter(c: char) { IsSpace(c) || c in "[]();,=" }

  predicate IsOperator(c: char) { c in "+-*/%" }

  predicate InClass(c: char, k: CharClass) {
    match k
    case NotNewline => c != '\n'
    case NotSingleQuote => c != '\''
    case NumberChar => IsDigit(c) || c == '.'
    case WordChar => IsWordChar(c)
    case TextChar => !IsDelimiter(c)
  }

  /** The end of the run of `k` characters that starts at `i`. */
  function ScanWhile(s: string, i: nat, k: CharClass): (r: nat)
    requires i <= |s|
    ensures i <= r <= |s|
    ensures forall j | i <= j < r :: InClass(s[j], k)
    ensures r == |s| || !InClass(s[r], k)
    decreases |s| - i
  {
    if i < |s| && InClass(s[i], k) then ScanWhile(s, i + 1, k) else i
  }

  predicate ClosesField(s: string, j: nat) {
    j + 1 < |s| && s[j] == ']' && s[j + 1] == ']'
  }

  /** Where the first `]]` at or after `i` starts, or the end of the text. */
  function FieldEnd(s: string, i: nat): (r: nat)
    requires i <= |s|
    ensures i <= r <= |s|
    ensures forall j | i <= j < r :: !ClosesField(s, j)
    ensures r == |s| || ClosesField(s, r)
    decreases |s| - i
  {
    if i < |s| && !ClosesField(s, i) then FieldEnd(s, i + 1) else i
  }

  /** The body of a double-quoted string that starts at `i`, a backslash
      taking the next character literally, and the position of the closing
      quote (or the end of the text). */
  function QuotedBody(s: string, i: nat): (r: (string, nat))
    requires i <= |s|
    ensures i <= r.1 <= |s|
    ensures r.1 == |s| || s[r.1] == '"'
    ensures |r.0| <= r.1 - i
    decreases |s| - i
  {
    if i == |s| || s[i] == '"' then ([], i)
    else if s[i] == '\\' && i + 1 < |s| then
      var rest := QuotedBody(s, i + 2);
      ([s[i + 1]] + rest.0, rest.1)
    else
      var rest := QuotedBody(s, i + 1);
      ([s[i]] + rest.0, rest.1)
  }

  function Min(a: nat, b: nat): nat { if a <= b then a else b }

  // ---------------------------------------------------------------------
  // classifying a text run

  /** `/^\d{4}-\d{2}-\d{2}/`. */
  predicate LooksLikeDate(t: string) {
    |t| >= 10 && AllDigits(t[..4]) && t[4] == '-' && AllDigits(t[5..7])
    && t[7] == '-' && AllDigits(t[8..10])
  }

  /** `/^\d+$/`. */
  predicate IntegerText(t: string) { t != [] && AllDigits(t) }

  /** `/^\d*\.\d+$/`. */
  predicate FractionText(t: string) {
    var b := DigitsEnd(t, 0);
    b + 1 < |t| && t[b] == '.' && AllDigits(t[b + 1..])
  }

  /** The token a text run becomes: a date, an integer (`parseInt`), a
      decimal fraction (`parseFloat`) or plain text. */
  function Classify(t: string): (r: Token)
    requires t != []
    ensures r.DateTok? <==> LooksLikeDate(t)
    ensures r.TextTok? <==> !LooksLikeDate(t) && !IntegerText(t) && !FractionText(t)
  {
    if LooksLikeDate(t) then DateTok(t)
    else if IntegerText(t) then NumberTok(FromInt(DigitsValue(t)))
    else if FractionText(t) then
      var b := DigitsEnd(t, 0);
      NumberTok(Decimal(DigitsValue(t[..b] + t[b + 1..]), |t| - b - 1))
    else TextTok(t)
  }

  // ---------------------------------------------------------------------
  // the scan

  /** One pass of the loop at `i`. The branches are tried in the order the
      tokenizer tries them: blanks and comments, then `QuoteStep`, then
      `MarkStep`. */
  function StepAt(s: string, i: nat): (r: Step)
    requires i < |s|
    ensures r.Advance? ==> i < r.next <= |s|
  {
    var c := s[i];
    if IsSpace(c) then Advance(i + 1, None)
    else if c == '/' && i + 1 < |s| && s[i + 1] == '/' then
      Advance(ScanWhile(s, i, NotNewline), None)
    else QuoteStep(s, i)
  }

  /** Fields and quoted strings. */
  function QuoteStep(s: string, i: nat): (r: Step)
    requires i < |s|
    ensures r.Advance? ==> i < r.next <= |s|
  {
    var c := s[i];
    if c == '[' && i + 1 < |s| && s[i + 1] == '[' then
      var e := FieldEnd(s, i + 2);
      Advance(Min(e + 2, |s|), Some(FieldTok(Trim(s[i + 2..e]))))
    else if c == '"' then
      var body := QuotedBody(s, i + 1);
      Advance(Min(body.1 + 1, |s|), Some(StringTok(body.0)))
    else if c == '\'' then
      var e := ScanWhile(s, i + 1, NotSingleQuote);
      Advance(Min(e + 1, |s|), Some(StringTok(s[i + 1..e])))
    else MarkStep(s, i)
  }

  /** The rest of the branches: numbers, function markers, punctuation,
      operators and the text run. */
  function MarkStep(s: string, i: nat): (r: Step)
    requires i < |s|
    ensures r.Advance? ==> i < r.next <= |s|
  {
    var c := s[i];
    if IsDigit(c) || (c == '-' && i + 1 < |s| && IsDigit(s[i + 1])) then
      var e := ScanWhile(s, if c == '-' then i + 1 else i, NumberChar);
      Advance(e, Some(NumberTok(NumberValue(s[i..e]))))
    else if c == '=' then
      var e := ScanWhile(s, if i + 1 < |s| && s[i + 1] == '!' then i + 2 else i + 1, WordChar);
      Advance(e, Some(FunctionTok(ToUpper(s[i + 1..e]))))
    else if c == '(' then Advance(i + 1, Some(LParen))
    else if c == ')' then Advance(i + 1, Some(RParen))
    else if c == ';' then Advance(i + 1, Some(Semicolon))
    else if c == ',' then Advance(i + 1, Some(Comma))
    else if IsOperator(c) then Advance(i + 1, Some(OperatorTok(c)))
    else
      var e := ScanWhile(s, i, TextChar);
      if e == i then NoProgress else Advance(e, Some(Classify(s[i..e])))
  }

  /** `parseFloat` of a number lexeme `-?\d[\d.]*`. */
  function NumberValue(lexeme: string): Decimal
  {
    match ParseDecimalPrefix(lexeme)
    case Some(d) => d
    case None => Decimal(0, 0)
  }

  function Emit(t: Option<Token>, r: LexResult): LexResult {
    match (t, r)
    case (Some(tok), Tokens(ts)) => Tokens([tok] + ts)
    case _ => r
  }

  function LexFrom(s: string, i: nat): LexResult
    requires i <= |s|
    decreases |s| - i
  {
    if i == |s| then Tokens([])
    else match StepAt(s, i)
      case NoProgress => Stuck(i)
      case Advance(j, t) => Emit(t, LexFrom(s, j))
  }

  /** `compilerTokenize(formula)`. */
  function Lex(s: string): LexResult {
    LexFrom(s, 0)
  }

  // ---------------------------------------------------------------------
  // the tokenizer as a loop

  method SkipWhile(s: string, i: nat, k: CharClass) returns (j: nat)
    requires i <= |s|
    ensures j == ScanWhile(s, i, k)
  {
    j := i;
    while j < |s| && InClass(s[j], k)
      invariant i <= j <= |s|
      invariant ScanWhile(s, j, k) == ScanWhile(s, i, k)
      decreases |s| - j
    {
      j := j + 1;
    }
  }

  method ReadField(s: string, i: nat) returns (value: string, j: nat)
    requires i <= |s|
    ensures j == FieldEnd(s, i) && value == s[i..j]
  {
    value, j := [], i;
    while j < |s| && !(s[j] == ']' && j + 1 < |s| && s[j + 1] == ']')
      invariant i <= j <= |s|
      invariant FieldEnd(s, j) == FieldEnd(s, i)
      invariant value == s[i..j]
      decreases |s| - j
    {
      value := value + [s[j]];
      j := j + 1;
    }
  }

  method ReadQuoted(s: string, i: nat) returns (value: string, j: nat)
    requires i <= |s|
    ensures (value, j) == QuotedBody(s, i)
  {
    value, j := [], i;
    assert value + QuotedBody(s, j).0 == QuotedBody(s, j).0;
    while j < |s| && s[j] != '"'
      invariant i <= j <= |s|
      invariant QuotedBody(s, i) == (value + QuotedBody(s, j).0, QuotedBody(s, j).1)
      decreases |s| - j
    {
      var rest := QuotedBody(s, j);
      if s[j] == '\\' && j + 1 < |s| {
        assert rest == ([s[j + 1]] + QuotedBody(s, j + 2).0, QuotedBody(s, j + 2).1);
        assert value + rest.0 == (value + [s[j + 1]]) + QuotedBody(s, j + 2).0;
        value := value + [s[j + 1]];
        j := j + 2;
      } else {
        assert rest == ([s[j]] + QuotedBody(s, j + 1).0, QuotedBody(s, j + 1).1);
        assert value + rest.0 == (value + [s[j]]) + QuotedBody(s, j + 1).0;
        value := value + [s[j]];
        j := j + 1;
      }
    }
    assert QuotedBody(s, j) == ([], j);
    assert value + [] == value;
  }

  /** One pass of the loop body: the branch the character at `i` selects. */
  method ScanStep(formula: string, i: nat) returns (step: Step)
    requires i < |formula|
    ensures step == StepAt(formula, i)
  {
    var c := formula[i];
    if IsSpace(c) {
      step := Advance(i + 1, None);
    } else if c == '/' && i + 1 < |formula| && formula[i + 1] == '/' {
      var e := SkipWhile(formula, i, NotNewline);
      step := Advance(e, None);
    } else {
      step := ScanQuote(formula, i);
    }
  }

  method ScanQuote(formula: string, i: nat) returns (step: Step)
    requires i < |formula|
    ensures step == QuoteStep(formula, i)
  {
    var c := formula[i];
    if c == '[' && i + 1 < |formula| && formula[i + 1] == '[' {
      var value, e := ReadField(formula, i + 2);
      FieldQuote(formula, i, value, e);
      step := Advance(Min(e + 2, |formula|), Some(FieldTok(Trim(value))));
    } else if c == '"' {
      var value, e := ReadQuoted(formula, i + 1);
      step := Advance(Min(e + 1, |formula|), Some(StringTok(value)));
    } else if c == '\'' {
      var e := SkipWhile(formula, i + 1, NotSingleQuote);
      step := Advance(Min(e + 1, |formula|), Some(StringTok(formula[i + 1..e])));
    } else {
      step := ScanMark(formula, i);
    }
  }

  lemma FieldQuote(s: string, i: nat, value: string, e: nat)
    requires i + 1 < |s| && s[i] == '[' && s[i + 1] == '['
    requires e == FieldEnd(s, i + 2) && value == s[i + 2..e]
    ensures QuoteStep(s, i) == Advance(Min(e + 2, |s|), Some(FieldTok(Trim(value))))
  {
  }

  method ScanMark(formula: string, i: nat) returns (step: Step)
    requires i < |formula|
    ensures step == MarkStep(formula, i)
  {
    var c := formula[i];
    if IsDigit(c) || (c == '-' && i + 1 < |formula| && IsDigit(formula[i + 1])) {
      var e := SkipWhile(formula, if c == '-' then i + 1 else i, NumberChar);
      step := Advance(e, Some(NumberTok(NumberValue(formula[i..e]))));
    } else if c == '=' {
      var e := SkipWhile(formula, if i + 1 < |formula| && formula[i + 1] == '!' then i + 2 else i + 1, WordChar);
      step := Advance(e, Some(FunctionTok(ToUpper(formula[i + 1..e]))));
    } else if c == '(' {
      step := Advance(i + 1, Some(LParen));
    } else if c == ')' {
      step := Advance(i + 1, Some(RParen));
    } else if c == ';' {
      step := Advance(i + 1, Some(Semicolon));
    } else if c == ',' {
      step := Advance(i + 1, Some(Comma));
    } else if IsOperator(c) {
      step := Advance(i + 1, Some(OperatorTok(c)));
    } else {
      var e := SkipWhile(formula, i, TextChar);
      step := if e == i then NoProgress else Advance(e, Some(Classify(formula[i..e])));
    }
  }

  /** The scanning loop. It stops where the source's loop would spin. */
  method Tokenize(formula: string) returns (r: LexResult)
    ensures r == Lex(formula)
  {
    var tokens: seq<Token> := [];
    var i: nat := 0;
    while i < |formula|
      invariant i <= |formula|
      invariant Lex(formula) == Emits(tokens, LexFrom(formula, i))
      decreases |formula| - i
    {
      var step := ScanStep(formula, i);
      if step.NoProgress? {
        return Emits(tokens, Stuck(i));
      }
      EmitsAppend(tokens, step.token, LexFrom(formula, step.next));
      if step.token.Some? {
        tokens := tokens + [step.token.value];
      }
      i := step.next;
    }
    return Tokens(tokens);
  }

  /** `ts` in front of the rest of the scan. */
  function Emits(ts: seq<Token>, r: LexResult): LexResult {
    match r
    case Tokens(rest) => Tokens(ts + rest)
    case Stuck(p) => r
  }

  lemma EmitsAppend(ts: seq<Token>, t: Option<Token>, r: LexResult)
    ensures Emits(ts, Emit(t, r)) == Emits(ts + (if t.Some? then [t.value] else []), r)
  {
    if t.Some? && r.Tokens? {
      assert ts + ([t.value] + r.tokens) == ts + [t.value] + r.tokens;
    }
  }

  // ---------------------------------------------------------------------
  // what the tokenizer emits

  /** A function-marker name: an optional leading `!`, then letters,
      digits and underscores, with no lower-case letter left. */
  predicate UpperName(n: string) {
    forall k | 0 <= k < |n| :: (k == 0 && n[k] == '!') || (IsWordChar(n[k]) && !('a' <= n[k] <= 'z'))
  }

  /** The shapes the tokenizer's tokens take: a field name without blanks
      around it, an upper-case function name, a text run that starts with
      no digit and holds no delimiter, and never a date. */
  predicate WellFormed(t: Token) {
    match t
    case FieldTok(n) => n == [] || (!IsSpace(n[0]) && !IsSpace(n[|n| - 1]))
    case FunctionTok(n) => UpperName(n)
    case TextTok(x) => x != [] && !IsDigit(x[0]) && forall k | 0 <= k < |x| :: !IsDelimiter(x[k])
    case DateTok(_) => false
    case _ => true
  }

  lemma UpperWordChar(c: char)
    requires IsWordChar(c)
    ensures IsWordChar(UpperChar(c)) && !('a' <= UpperChar(c) <= 'z')
  {
  }

  lemma MarkerName(s: string, i: nat, e: nat)
    requires i < |s| && s[i] == '='
    requires e == ScanWhile(s, if i + 1 < |s| && s[i + 1] == '!' then i + 2 else i + 1, WordChar)
    ensures UpperName(ToUpper(s[i + 1..e]))
  {
    var n := s[i + 1..e];
    var u := ToUpper(n);
    forall k | 0 <= k < |u| ensures (k == 0 && u[k] == '!') || (IsWordChar(u[k]) && !('a' <= u[k] <= 'z')) {
      assert n[k] == s[i + 1 + k];
      if !(k == 0 && n[k] == '!') {
        assert InClass(s[i + 1 + k], WordChar);
        UpperWordChar(n[k]);
      }
    }
  }

  lemma TextRun(s: string, i: nat)
    requires i < |s| && MarkStep(s, i).Advance?
    requires !IsDigit(s[i]) && s[i] !in "=();,+-*/%"
    ensures WellFormed(MarkStep(s, i).token.value)
  {
    var e := ScanWhile(s, i, TextChar);
    var x := s[i..e];
    assert forall k | 0 <= k < |x| :: x[k] == s[i + k];
    assert !LooksLikeDate(x) by { if |x| >= 10 { assert x[..4][0] == x[0]; } }
    assert !IntegerText(x) by { assert x[0] == s[i]; }
    if FractionText(x) {
      assert MarkStep(s, i).token.value.NumberTok?;
    }
  }

  /** Every token one pass emits is well formed. */
  lemma StepWellFormed(s: string, i: nat)
    requires i < |s|
    ensures StepAt(s, i).Advance? && StepAt(s, i).token.Some? ==> WellFormed(StepAt(s, i).token.value)
  {
    var c := s[i];
    if !IsSpace(c) && !(c == '/' && i + 1 < |s| && s[i + 1] == '/')
      && !(c == '[' && i + 1 < |s| && s[i + 1] == '[') && c != '"' && c != '\'' {
      if c == '=' {
        MarkerName(s, i, ScanWhile(s, if i + 1 < |s| && s[i + 1] == '!' then i + 2 else i + 1, WordChar));
      } else if !IsDigit(c) && !(c == '-' && i + 1 < |s| && IsDigit(s[i + 1]))
        && c !in "();,+-*/%" && MarkStep(s, i).Advance? {
        TextRun(s, i);
      }
    }
  }

  /** The tokenizer emits only well-formed tokens: blanks and comments give
      none, fields are trimmed, function names upper-cased, and no date
      token ever appears. */
  lemma {:induction false} LexWellFormed(s: string, i: nat)
    requires i <= |s|
    ensures LexFrom(s, i).Tokens? ==>
      forall k | 0 <= k < |LexFrom(s, i).tokens| :: WellFormed(LexFrom(s, i).tokens[k])
    decreases |s| - i
  {
    if i < |s| {
      StepWellFormed(s, i);
      var st := StepAt(s, i);
      if st.Advance? {
        LexWellFormed(s, st.next);
      }
    }
  }

  // ---------------------------------------------------------------------
  // where the scan gets stuck

  /** A `]`, or a `[` that does not open `[[`. */
  predicate LoneBracket(s: string, i: nat)
    requires i < |s|
  {
    s[i] == ']' || (s[i] == '[' && !(i + 1 < |s| && s[i + 1] == '['))
  }

  /** One pass makes no progress exactly at a lone bracket. */
  lemma StepStuckIff(s: string, i: nat)
    requires i < |s|
    ensures StepAt(s, i) == NoProgress <==> LoneBracket(s, i)
  {
    var c := s[i];
    if LoneBracket(s, i) {
      assert IsDelimiter(c);
      assert ScanWhile(s, i, TextChar) == i;
    }
  }

  /** The scan stops only at a lone bracket, at or after where it started. */
  lemma {:induction false} StuckAtLoneBracket(s: string, i: nat)
    requires i <= |s|
    ensures LexFrom(s, i).Stuck? ==> i <= LexFrom(s, i).pos < |s| && LoneBracket(s, LexFrom(s, i).pos)
    decreases |s| - i
  {
    if i < |s| {
      StepStuckIff(s, i);
      var st := StepAt(s, i);
      if st.Advance? {
        StuckAtLoneBracket(s, st.next);
      }
    }
  }

  /** A lone bracket where a token would start stops the scan right there. */
  lemma LoneBracketStops(s: string, i: nat)
    requires i < |s| && LoneBracket(s, i)
    ensures LexFrom(s, i) == Stuck(i)
  {
    StepStuckIff(s, i);
  }

  // ---------------------------------------------------------------------
  // blanks and comments

  /** A run of blanks is skipped without a token. */
  lemma {:induction false} BlanksSkipped(s: string, i: nat, j: nat)
    requires i <= j <= |s| && AllSpace(s[i..j])
    ensures LexFrom(s, i) == LexFrom(s, j)
    decreases j - i
  {
    if i < j {
      BlanksRest(s, i, j);
      BlanksSkipped(s, i + 1, j);
      BlankStep(s, i);
    }
  }

  lemma BlanksRest(s: string, i: nat, j: nat)
    requires i < j <= |s| && AllSpace(s[i..j])
    ensures IsSpace(s[i]) && AllSpace(s[i + 1..j])
  {
    var run, rest := s[i..j], s[i + 1..j];
    assert run[0] == s[i];
    forall k | 0 <= k < |rest| ensures IsSpace(rest[k]) {
      assert rest[k] == run[k + 1];
    }
  }

  lemma BlankStep(s: string, i: nat)
    requires i < |s| && IsSpace(s[i])
    ensures LexFrom(s, i) == LexFrom(s, i + 1)
  {
    assert StepAt(s, i) == Advance(i + 1, None);
  }

  /** Text made of blanks alone gives no tokens. */
  lemma BlanksGiveNothing(s: string)
    requires AllSpace(s)
    ensures Lex(s) == Tokens([])
  {
    assert s[0..|s|] == s;
    BlanksSkipped(s, 0, |s|);
  }

  /** A field reference `[[ name ]]` is one FIELD token with the name
      trimmed. */
  lemma FieldAt(s: string, i: nat, e: nat)
    requires i + 2 <= e && e + 2 <= |s|
    requires s[i] == '[' && s[i + 1] == '[' && ClosesField(s, e)
    requires forall k | i + 2 <= k < e :: !ClosesField(s, k)
    ensures StepAt(s, i) == Advance(e + 2, Some(FieldTok(Trim(s[i + 2..e]))))
  {
    FieldEndIs(s, i + 2, e);
    StepToQuote(s, i);
    FieldQuoteStep(s, i, e);
  }

  lemma StepToQuote(s: string, i: nat)
    requires i < |s| && s[i] in "[\"'"
    ensures StepAt(s, i) == QuoteStep(s, i)
  {
    assert !IsSpace(s[i]);
  }

  lemma FieldQuoteStep(s: string, i: nat, e: nat)
    requires i + 2 <= e && e + 2 <= |s|
    requires s[i] == '[' && s[i + 1] == '[' && FieldEnd(s, i + 2) == e
    ensures QuoteStep(s, i) == Advance(e + 2, Some(FieldTok(Trim(s[i + 2..e]))))
  {
    var st := QuoteStep(s, i);
    assert st.Advance?;
    assert st.next == e + 2;
    assert st.token == Some(FieldTok(Trim(s[i + 2..e])));
  }

  lemma {:induction false} FieldEndIs(s: string, i: nat, e: nat)
    requires i <= e <= |s|
    requires forall k | i <= k < e :: !ClosesField(s, k)
    requires e == |s| || ClosesField(s, e)
    ensures FieldEnd(s, i) == e
    decreases e - i
  {
    if i < e {
      FieldEndIs(s, i + 1, e);
    }
  }

  /** A `//` comment is skipped up to the next line break, which is
      itself skipped as a blank. */
  lemma CommentSkipped(s: string, i: nat)
    requires i + 1 < |s| && s[i] == '/' && s[i + 1] == '/'
    ensures var e := ScanWhile(s, i, NotNewline);
      && (e == |s| || s[e] == '\n')
      && LexFrom(s, i) == LexFrom(s, e)
  {
  }

  // ---------------------------------------------------------------------
  // function markers

  /** `=NAME` or `=!NAME` is one FUNCTION token: the longest run of
      letters, digits and underscores after the marker, upper-cased, with
      the `!` kept. */
  lemma MarkerStep(s: string, i: nat)
    requires i < |s| && s[i] == '='
    ensures var st := StepAt(s, i);
      && st.Advance?
      && st.token == Some(FunctionTok(ToUpper(s[i + 1..st.next])))
      && (st.next == |s| || !IsWordChar(s[st.next]))
      && UpperName(ToUpper(s[i + 1..st.next]))
  {
    var e := ScanWhile(s, if i + 1 < |s| && s[i + 1] == '!' then i + 2 else i + 1, WordChar);
    assert !IsSpace(s[i]);
    assert StepAt(s, i) == MarkStep(s, i);
    assert MarkStep(s, i) == Advance(e, Some(FunctionTok(ToUpper(s[i + 1..e]))));
    MarkerName(s, i, e);
  }

  /** The text `[[name]]` lexes to the one field token `name`. */
  lemma FieldRelexes(name: string)
    requires name != [] && Trim(name) == name && ']' !in name
    ensures Lex("[[" + name + "]]") == Tokens([FieldTok(name)])
  {
    var s := "[[" + name + "]]";
    FieldBody(s, name);
    FieldStep(s, name);
    OneStep(s, FieldTok(name));
  }

  lemma FieldStep(s: string, name: string)
    requires |s| == |name| + 4 && s[0] == '[' && s[1] == '[' && ClosesField(s, |name| + 2)
    requires s[2..|name| + 2] == name
    requires forall k | 2 <= k < |name| + 2 :: !ClosesField(s, k)
    ensures StepAt(s, 0) == Advance(|s|, Some(FieldTok(Trim(name))))
  {
    FieldAt(s, 0, |name| + 2);
  }

  lemma FieldBody(s: string, name: string)
    requires s == "[[" + name + "]]" && ']' !in name
    ensures s[0] == '[' && s[1] == '[' && ClosesField(s, |name| + 2)
    ensures s[2..|name| + 2] == name
    ensures forall k | 2 <= k < |name| + 2 :: !ClosesField(s, k)
  {
    forall k | 2 <= k < |name| + 2 ensures s[k] != ']' { assert s[k] == name[k - 2]; }
  }

  /** A text the first step reads whole gives that step's one token. */
  lemma OneStep(s: string, t: Token)
    requires s != [] && StepAt(s, 0) == Advance(|s|, Some(t))
    ensures Lex(s) == Tokens([t])
  {
    assert LexFrom(s, |s|) == Tokens([]);
  }
}
