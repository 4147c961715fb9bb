/** The compile button (`compileFormula`): a blank formula asks for one;
    otherwise the comments are stripped, the rest tokenized, parsed and
    evaluated against the field values, and the value is shown as text,
    or the parser's error is shown after "Error: ". */
module Pipeline {
  import opened Wrappers
  import opened JsString
  import opened Lexer
  import opened Ast
  import opened Parser
  import opened Values
  import Evaluator
  import EditorText

  /** What the output box ends up showing. `Hangs` is a run where the
      tokenizer or a built-in's loop never ends; `Unmodelled` is a value
      this model does not determine. */
  datatype Display =
    | Prompt
    | Shown(text: string)
    | Failed(message: string)
    | Hangs
    | Unmodelled

  /** The text in the output box, when the run ends. */
  function OutputText(d: Display): (r: string)
    requires d.Prompt? || d.Shown? || d.Failed?
    ensures d.Failed? ==> r == "Error: " + d.message
    ensures d.Shown? ==> r == d.text
  {
    match d
    case Prompt => "Enter a formula to compile..."
    case Shown(t) => t
    case Failed(m) => "Error: " + m
  }

  /** `compileFormula` on the formula `code` and the field values `env`. */
  function Compile(code: string, env: Evaluator.Env): (d: Display)
    ensures d.Prompt? <==> Trim(code) == []
  {
    if Trim(code) == [] then Prompt else Run(EditorText.StripComments(code), env)
  }

  /** The formula without comments, tokenized, parsed and evaluated. */
  function Run(cleanCode: string, env: Evaluator.Env): (d: Display)
    ensures !d.Prompt?
  {
    match Lex(cleanCode)
    case Stuck(_) => Hangs
    case Tokens(ts) => Show(Parse(ts), env)
  }

  /** What the parser's result comes to: its error message, or the value
      of the formula as text. */
  function Show(parsed: Parsed<Node>, env: Evaluator.Env): (d: Display)
    ensures d.Failed? <==> parsed.Err?
    ensures parsed.Err? ==> d.message == Message(parsed.error)
  {
    match parsed
    case Err(e) => Failed(Message(e))
    case Ok(node, _) =>
      match Evaluator.Evaluate(node, env)
      case Val(v) => Shown(Stringify(v))
      case Diverges => Hangs
      case Outside => Unmodelled
  }

  /** The same, through the tokenizer loop and the parser object. */
  method CompileFormula(code: string, env: Evaluator.Env) returns (d: Display)
    ensures d == Compile(code, env)
  {
    if Trim(code) == [] {
      return Prompt;
    }
    var cleanCode := EditorText.StripComments(code);
    var lexed := Tokenize(cleanCode);
    if lexed.Stuck? {
      return Hangs;
    }
    var parser := new FormulaParser(lexed.tokens);
    var parsed := parser.Parse();
    d := Show(parsed, env);
  }

  /** A comment at the end of the last line changes nothing. */
  lemma TrailingCommentIgnored(a: string, t: string, env: Evaluator.Env)
    requires Trim(a) != [] && !EditorText.HasComment(a) && a[|a| - 1] != '/'
    requires '\n' !in t
    ensures Compile(a + "//" + t, env) == Compile(a, env)
  {
    var x := a + "//" + t;
    EditorText.TrailingCommentText(a, t);
    SameCleanCode(x, a, env);
  }

  /** Two formulas that are not blank and lose their comments to the same
      text compile alike. */
  lemma SameCleanCode(x: string, y: string, env: Evaluator.Env)
    requires Trim(x) != [] && Trim(y) != []
    requires EditorText.StripComments(x) == EditorText.StripComments(y)
    ensures Compile(x, env) == Compile(y, env)
  {
  }

  /** A formula that is only a comment, after blanks, shows the empty
      text: nothing is left to tokenize, and no tokens parse to an empty
      CONCAT. */
  lemma CommentOnlyShowsNothing(w: string, t: string, env: Evaluator.Env)
    requires AllSpace(w) && '\n' !in t
    ensures Compile(w + "//" + t, env) == Shown("")
  {
    EditorText.CommentOnlyText(w, t);
    BlanksGiveNothing(w);
    NoTokensShowNothing(w, env);
  }

  /** No tokens parse to an empty CONCAT, which is the empty text. */
  lemma NoTokensShowNothing(cleanCode: string, env: Evaluator.Env)
    requires Lex(cleanCode) == Tokens([])
    ensures Run(cleanCode, env) == Shown("")
  {
    assert Parse([]) == Ok(Concat([]), 0);
    assert Evaluator.Evaluate(Concat([]), env) == Evaluator.Val(Str(""));
  }

  /** A function name with nothing after it stops the parser, and the
      box shows its message. */
  lemma LoneNameFails(cleanCode: string, name: string, env: Evaluator.Env)
    requires Lex(cleanCode) == Tokens([FunctionTok(name)])
    ensures Run(cleanCode, env) == Failed("Expected LPAREN but got EOF")
  {
    LoneNameUnparsed(name);
  }

  /** An unfilled field shows its own token text, which reads back as the
      same field: the echo is a fixed point of compiling. */
  lemma UnfilledFieldEchoes(name: string, env: Evaluator.Env)
    requires name !in env && name != [] && Trim(name) == name
    requires ']' !in name && '/' !in name
    ensures Compile("[[" + name + "]]", env) == Shown("[[" + name + "]]")
  {
    var s := "[[" + name + "]]";
    NotBlankField(name);
    NoCommentInField(name);
    FieldRelexes(name);
    LoneFieldShown(s, name, env);
  }

  lemma NotBlankField(name: string)
    ensures Trim("[[" + name + "]]") != []
  {
    var s := "[[" + name + "]]";
    assert s[0] == '[' && !IsSpace('[');
    TrimEmptyIffAllSpace(s);
  }

  lemma NoCommentInField(name: string)
    requires '/' !in name
    ensures !EditorText.HasComment("[[" + name + "]]")
  {
    var s := "[[" + name + "]]";
    forall k | 0 <= k < |s| ensures s[k] != '/' {
      if 2 <= k < |s| - 2 { assert s[k] == name[k - 2]; }
    }
  }

  /** A lone field token shows the field's text, or its echo. */
  lemma LoneFieldShown(cleanCode: string, name: string, env: Evaluator.Env)
    requires Lex(cleanCode) == Tokens([FieldTok(name)]) && name !in env
    ensures Run(cleanCode, env) == Shown("[[" + name + "]]")
  {
    FlatFormula([FieldTok(name)]);
    assert Parse([FieldTok(name)]) == Ok(Field(name), 1);
    Evaluator.EvalField(name, env);
  }

  /** Once the list is rebuilt, every field the formula refers to is
      bound, so evaluation reads the value typed for it (or empty) and
      never echoes the `[[name]]` reference back. */
  lemma KeptValuesBindFields(fields: seq<string>, previous: Evaluator.Env, f: string)
    requires f in fields
    ensures Evaluator.FieldText(EditorText.KeptValues(fields, previous), f) == if f in previous then previous[f] else ""
  {
  }
}
