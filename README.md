# FormulaEditor formula core, in Dafny

This project models the part of the FormulaEditor that gives ProcessPlan
formulas their meaning, and the text tools the editor runs over a formula.

- **Registry** (`registry.dfy`) holds the function registry
  `FUNCTION_DATA`: name → parameters, description, example and status.
  It also holds the set `FUNCTIONS`, the sorted `FUNCTION_LIST` and the
  lookup helpers. A status is one of three values of the `Status`
  datatype, so every record's status is implemented, partial or not
  implemented by construction. `StringOrder` (`string_order.dfy`) is
  JavaScript's default sort order on strings: UTF-16 code units, compared
  one by one.
- **Lexer** (`lexer.dfy`) is `compilerTokenize`. The functions `StepAt`,
  `QuoteStep` and `MarkStep` specify one pass of the loop, and `Lex`
  specifies the whole scan. The methods `ScanStep`, `ScanQuote`,
  `ScanMark` and `Tokenize` are the loop itself. A lone `[` or `]` makes
  the source loop forever without consuming anything; the model gives
  `Stuck(position)` there.
- **Ast and Parser** (`parser.dfy`) is `FormulaParser`. The functions
  `ParseExpr`, `ParseCall`, `ParseArgs`, `ParsePart` and `ParseFrom` take
  a token list and a cursor. The class `FormulaParser` keeps its cursor
  in a field `pos` and moves it with `Consume`, as the source does. Each
  of its methods is proved equal to the matching function. A parse gives
  a node and the position after it, or the error "Expected X but got Y".
- **Values** (`values.dfy`) is `stringify`, `toNumber` and `toBoolean`
  over `Value = Str | Num | Bool | Null`. **Numbers** (`numbers.dfy`)
  holds decimals as mantissa and scale, `Math.floor`, `Math.ceil`, and
  `parseFloat` on the texts `toNumber` feeds it.
- **Evaluator** (`evaluator.dfy`) is `FormulaEvaluator.evaluate` and
  `evaluateFunction`. An evaluation has one of three outcomes:
  - `Val(v)`, a value;
  - `Diverges`, when PARTITION's loop never ends;
  - `Outside`, for a value this model does not determine.

  The registry's status guard comes first. The `switch` then maps each
  name to one of:
  - a strict built-in;
  - `IF`, with `EvaluateIf`;
  - `FIRSTVALUE`, with `EvaluateFirstValue`;
  - a case left out;
  - the "Unknown function" default.

  The built-ins themselves are in `TextFunctions`, `ListFunctions`
  (lists are `;`-separated texts), `Lists` (filter, de-duplication) and
  `Partition`. `BuiltinLaws` states what the built-ins promise when
  called through the evaluator.
- **Pipeline** (`pipeline.dfy`) is the compile button, `compileFormula`:
  - a blank formula asks for one;
  - otherwise comments are stripped, and the rest is tokenized, parsed
    and evaluated against the field values;
  - the value is shown as text, or a parse error is shown after "Error: ".
- **EditorText** (`editor_text.dfy`) holds `stripComments`,
  `getCurrentIndent`, `getIndentLevel`, `extractFields` and how the field
  panel keeps earlier values.
- **ParamHint** (`param_hint.dfy`) is the scanning loop of
  `getCurrentFunctionContext`, over the text before the cursor.
- **Highlighter** (`highlighter.dfy`) is the syntax-highlighting
  `tokenize`, with its stack of per-function parenthesis counters.
- **Formatter** (`formatter.dfy`) is `formatFormula`. Its first pass
  drops blanks outside strings and brackets. Its second pass lays the
  text out with line breaks and tabs.
- **JsString** (`js_string.dfy`) holds the JavaScript string operations
  the source calls: `trim`, `indexOf`, `lastIndexOf`, `substring`,
  `split`, `join`, ASCII case mapping and `String(n)`.

A name the registry lacks is answered with "[NAME: Not available -
requires ProcessPlan backend]", and its arguments are not evaluated.
"[Unknown function: NAME]" comes only from a registered name that is not
marked not-implemented and has no case in the evaluator's switch.
`Evaluator.Dispatch` and `Evaluator.UnavailableIgnoresArguments` state
this.

## Model

| member | source | states |
|---|---|---|
| Registry.Functions | FormulaEditor/functions.js:688 | a name is in `FUNCTIONS` exactly when it is a key of the registry |
| Registry.FunctionList | FormulaEditor/functions.js:689 | `FUNCTION_LIST` is strictly ascending in code-unit order, free of duplicates, and holds exactly the registry's keys, one each |
| Registry.GetFunctionParams | FormulaEditor/functions.js:692-694 | the registered parameter list for a known name, the empty list for any other |
| Registry.GetFunctionStatus | FormulaEditor/functions.js:696-698 | the registered status for a known name, not-implemented for any other |
| Registry.GetFunctionDescription | FormulaEditor/functions.js:705-707 | the registered description, or "" for an unknown name |
| Registry.GetFunctionExample | FormulaEditor/functions.js:709-711 | the registered example, or "" for an unknown name |
| Registry.GetFunctionSyntax | FormulaEditor/functions.js:700-703 | the syntax starts with `=NAME(` and ends with `)`, and its length is the name's plus 3 plus the length of the parameters joined by "; " |
| Registry.SyntaxInner | FormulaEditor/functions.js:702 | the text between the parentheses accounts for the rest of the syntax's length |
| Registry.SyntaxWithoutParams | FormulaEditor/functions.js:700-703 | a name with no parameters, or an unknown one, has the syntax `=NAME()` |
| Registry.SyntaxRoundTrip | FormulaEditor/functions.js:700-703 | splitting the text between the parentheses at "; " gives back the parameter list, when no parameter holds a `;` |
| StringOrder.SortedElements | FormulaEditor/functions.js:689 | the elements of a set of names in strictly ascending order: same elements, same count |
| StringOrder.StrictlySortedUnique | FormulaEditor/functions.js:689 | a strictly ascending list of a set's elements is that set's sorted list, so the sorted order is unique |
| StringOrder.BelowTotal | FormulaEditor/functions.js:689 | any two different names are ordered one way or the other |
| StringOrder.BelowTransitive | FormulaEditor/functions.js:689 | the sort order is transitive |
| Lexer.Tokenize | FormulaEditor/compiler.js:7-149 | the tokenizer loop gives exactly `Lex` of the formula: the token list, or `Stuck(i)` where the source would loop forever |
| Lexer.ScanStep | FormulaEditor/compiler.js:11-145 | one pass of the loop body from position `i` is `StepAt` |
| Lexer.ScanQuote | FormulaEditor/compiler.js:24-66 | the field and string branches of the loop body are `QuoteStep` |
| Lexer.ScanMark | FormulaEditor/compiler.js:68-145 | the number, function-marker, delimiter, operator and text-run branches are `MarkStep` |
| Lexer.SkipWhile | FormulaEditor/compiler.js:20 | an inner scanning loop stops at the end of the run of characters of its class, as `ScanWhile` |
| Lexer.ReadField | FormulaEditor/compiler.js:26-32 | the field loop collects exactly the characters before the first `]]` or the end of the text |
| Lexer.ReadQuoted | FormulaEditor/compiler.js:38-53 | the double-quote loop, with backslash escapes, ends as `QuotedBody` says |
| Lexer.ScanWhile | FormulaEditor/compiler.js:20 | the run from `i` is all of the class, and stops at the end or at a character outside it |
| Lexer.FieldEnd | FormulaEditor/compiler.js:28-31 | the first `]]` at or after `i`, or the end; no `]]` starts before it |
| Lexer.QuotedBody | FormulaEditor/compiler.js:41-49 | the string body stops at a closing `"` or the end, and is no longer than the text it spans |
| Lexer.Classify | FormulaEditor/compiler.js:134-145 | a text run is a DATE exactly when it starts like `dddd-dd-dd`, and TEXT exactly when it is neither a date nor an integer nor a decimal fraction |
| Lexer.StepAt | FormulaEditor/compiler.js:11-145 | a step that advances moves strictly forward, and stays within the text |
| Lexer.QuoteStep | FormulaEditor/compiler.js:24-66 | a field or string step moves strictly forward within the text |
| Lexer.MarkStep | FormulaEditor/compiler.js:68-145 | the other branches move strictly forward within the text when they advance |
| Lexer.LexWellFormed | FormulaEditor/compiler.js:7-149 | every token read has its shape: a field name has no blank at either end, a function name is upper case with an optional leading `!`, a text run is non-empty, starts with no digit and holds no delimiter, and no DATE token ever appears |
| Lexer.StepWellFormed | FormulaEditor/compiler.js:11-145 | each single step emits a well-formed token |
| Lexer.MarkerName | FormulaEditor/compiler.js:83-97 | the name after `=` or `=!` upper-cased is an upper-case name |
| Lexer.MarkerStep | FormulaEditor/compiler.js:83-97 | `=` always reads a FUNCTION token whose value is the upper-cased name including a leading `!`, ending at the first non-word character |
| Lexer.TextRun | FormulaEditor/compiler.js:128-145 | a text run that does not start with a digit yields a well-formed TEXT token |
| Lexer.StepStuckIff | FormulaEditor/compiler.js:128-134 | a step makes no progress exactly when the character is a `[` or `]` that does not open a field |
| Lexer.StuckAtLoneBracket | FormulaEditor/compiler.js:128-145 | when lexing gets stuck, it is at a lone bracket |
| Lexer.LoneBracketStops | FormulaEditor/compiler.js:128-134 | a lone bracket makes lexing get stuck right there, so the source never returns |
| Lexer.BlanksSkipped | FormulaEditor/compiler.js:12-16 | blanks emit no token, so `[[A]] [[B]]` lexes as `[[A]][[B]]` |
| Lexer.BlanksGiveNothing | FormulaEditor/compiler.js:11-16 | a text of blanks only lexes to no tokens |
| Lexer.CommentSkipped | FormulaEditor/compiler.js:18-22 | `//` emits nothing up to the next line break or the end |
| Lexer.FieldAt | FormulaEditor/compiler.js:24-35 | `[[ x ]]` gives one FIELD token holding the trimmed inner text, and the step continues after `]]` |
| Lexer.FieldQuoteStep | FormulaEditor/compiler.js:24-35 | the field branch reads to the first `]]` and trims what it read |
| Parser.FormulaParser.constructor | FormulaEditor/compiler.js:162-165 | a new parser holds the tokens, with its cursor at 0 |
| Parser.FormulaParser.Current | FormulaEditor/compiler.js:167-169 | the token under the cursor, or none past the end |
| Parser.FormulaParser.Consume | FormulaEditor/compiler.js:171-178 | with an expected type that does not match, or at the end: the error "Expected T but got U" (U is "EOF" at the end) and the cursor does not move; otherwise the current token, and the cursor moves by one |
| Parser.FormulaParser.ParseExpression | FormulaEditor/compiler.js:194-229 | the method's result and final cursor are `ParseExpr` from the old cursor |
| Parser.FormulaParser.ParseFunctionCall | FormulaEditor/compiler.js:231-276 | the method's result and final cursor are `ParseCall` from the old cursor |
| Parser.FormulaParser.ParseArgument | FormulaEditor/compiler.js:240-258 | the inner loop collecting one argument's parts is `ParsePart` from the old cursor |
| Parser.FormulaParser.Parse | FormulaEditor/compiler.js:184-192 | `parse()` is `ParseFrom` from the old cursor |
| Parser.ParseExpr | FormulaEditor/compiler.js:194-229 | a parsed expression stays within the tokens and consumes at least one token whenever one is left |
| Parser.ParseCall | FormulaEditor/compiler.js:231-276 | a call parses only when the name is followed by LPAREN and the arguments are closed by RPAREN; the node is a FUNCTION with the token's name |
| Parser.ParseArgs | FormulaEditor/compiler.js:237-271 | the argument loop stops at the end or at an RPAREN |
| Parser.ParsePart | FormulaEditor/compiler.js:243-258 | one argument stops at the end, at an RPAREN, or at a depth-0 separator; it consumes nothing only at depth 0 |
| Parser.Argument | FormulaEditor/compiler.js:260-265 | one part is the argument itself, several make one CONCAT, and none make no argument |
| Parser.SkipSeparator | FormulaEditor/compiler.js:267-270 | skipping a `;` or `,` moves forward by at most one token within the list |
| Parser.ParseTop | FormulaEditor/compiler.js:185-188 | the top-level loop consumes every token and yields at most one node per token |
| Parser.ParseFrom | FormulaEditor/compiler.js:184-192 | a successful parse consumes every token |
| Parser.ArgsFail | FormulaEditor/compiler.js:243-258 | an error inside one argument is the error of the whole call |
| Parser.ArgsStep | FormulaEditor/compiler.js:237-271 | after one argument, the loop goes on past the separator with that argument added |
| Parser.FirstSlot | FormulaEditor/compiler.js:237-271 | with no nested call or parenthesis, the first argument is the tokens before the first separator |
| Parser.ArgsFlat | FormulaEditor/compiler.js:237-271 | with no nested call or parenthesis, the arguments are the separator-delimited slots, each turned into a node, empty slots dropped |
| Parser.PartFlat | FormulaEditor/compiler.js:243-258 | a run of plain tokens becomes one leaf node each |
| Parser.FlatCall | FormulaEditor/compiler.js:231-276 | `NAME ( plain tokens )` parses to FUNCTION NAME over the slots' nodes |
| Parser.TopFlat | FormulaEditor/compiler.js:185-188 | without function tokens, each top-level token becomes one leaf node, in order |
| Parser.FlatFormula | FormulaEditor/compiler.js:184-192 | without function tokens, one token is returned as its node and any other count is wrapped in one CONCAT, in source order |
| Values.ToNumber | FormulaEditor/compiler.js:312-316 | a number is itself, and anything else read back is exact: at most fifteen significant digits and 0 or at least 10^-307 in size |
| Values.TinyTextReadsZero | FormulaEditor/compiler.js:315 | text whose number is at most 2^-1075 in size reads as 0, as `parseFloat` followed by the fallback to 0 does |
| Values.ToNumberOfText | FormulaEditor/compiler.js:306-316 | `toNumber` of the text of a whole number is that number |
| Values.DigitsOnlyKept | FormulaEditor/compiler.js:314 | a text of digits, dots and minus signs passes the character filter unchanged |
| Values.PositiveText | FormulaEditor/compiler.js:321 | `parseFloat` of a whole number's text is positive exactly when the number is |
| Values.ToBooleanOfText | FormulaEditor/compiler.js:318-322 | `toBoolean` gives the same for a number and for its text |
| Values.ToBooleanOfBoolText | FormulaEditor/compiler.js:306-322 | `toBoolean` of the stringified boolean ("1" or "0") is that boolean |
| Values.Stringify | FormulaEditor/compiler.js:305-309 | text stays as it is; a number gives non-empty text of digits, dots and minus signs, starting with `-` exactly when negative; true and false give the texts of 1 and 0; only `null` and "" give "" |
| Values.ToBoolean | FormulaEditor/compiler.js:318-322 | a boolean is itself, a number is true exactly when positive, text reading "true" or "1" in any case is true, and `null` and "" are false |
| Numbers.Floor | FormulaEditor/compiler.js:598 | the greatest integer not above the decimal |
| Numbers.Ceil | FormulaEditor/compiler.js:602 | the least integer not below the decimal |
| Numbers.Trunc | FormulaEditor/compiler.js:437 | the count `substring` uses is rounded toward zero: floor for a non-negative count, ceiling for a negative one |
| Numbers.ParseDecimalPrefix | FormulaEditor/compiler.js:315 | `parseFloat` reads a number exactly when a digit, or a dot followed by a digit, starts the text after an optional `-` |
| Numbers.ParseDecimalString | FormulaEditor/compiler.js:315 | `parseFloat` of a whole number's text reads back that number |
| JsString.Trim | FormulaEditor/compiler.js:33 | the result is the text with its leading and trailing blanks cut: a slice of the text with only blanks before and after it, and neither of its ends a blank |
| JsString.TrimStart | FormulaEditor/compiler.js:315 | the result is a suffix of the text, only blanks were cut, and it does not start with a blank |
| JsString.TrimEnd | FormulaEditor/editor.js:534 | the result is a prefix of the text, only blanks were cut, and it does not end with a blank |
| JsString.TrimEmptyIffAllSpace | FormulaEditor/compiler.js:1229 | a text trims to "" exactly when it is all blanks |
| JsString.TrimIdempotent | FormulaEditor/compiler.js:703 | trimming twice is trimming once |
| JsString.IndexFrom | FormulaEditor/compiler.js:449 | the first occurrence at or after `k`, or -1, with no occurrence before it |
| JsString.IndexOf | FormulaEditor/compiler.js:449 | `indexOf`: -1 or an occurrence, and no occurrence earlier |
| JsString.LastIndexBelow | FormulaEditor/compiler.js:463 | the last occurrence at or before `k`, or -1, with none after it |
| JsString.LastIndexOf | FormulaEditor/compiler.js:463 | `lastIndexOf`: -1 or an occurrence, and no occurrence later |
| JsString.IncludesIff | FormulaEditor/compiler.js:413 | `includes` holds exactly when the search text occurs somewhere |
| JsString.Clamp | FormulaEditor/compiler.js:437 | an index is clamped into 0..length, unchanged when already there |
| JsString.Substring | FormulaEditor/compiler.js:437 | `substring(a, b)` is the slice when 0 ≤ a ≤ b ≤ length, and never longer than the text |
| JsString.SubstringFrom | FormulaEditor/compiler.js:443 | `substring(a)` is the suffix from the clamped index |
| JsString.Join | FormulaEditor/compiler.js:500 | joining no parts gives "", and one part gives that part |
| JsString.Chars | FormulaEditor/compiler.js:508 | splitting at "" gives the characters one by one |
| JsString.Split | FormulaEditor/compiler.js:500 | `split("")` gives the characters one by one; any other separator gives at least one part, and no part holds the separator |
| JsString.SplitOnJoin | FormulaEditor/compiler.js:500 | joining the parts of a split with the same separator gives back the text |
| JsString.SplitJoin | FormulaEditor/compiler.js:500 | the same round trip for any separator, the empty one included |
| JsString.CharsJoin | FormulaEditor/compiler.js:508 | joining the characters with "" gives back the text |
| JsString.SplitOnPartsFree | FormulaEditor/compiler.js:730 | no part of a split contains the separator |
| JsString.SplitOnOfJoin | FormulaEditor/compiler.js:730 | splitting a join of parts that lack the separator's first character gives back the parts |
| JsString.ReplaceAll | FormulaEditor/compiler.js:496-501 | REPLACE as `split(search).join(replacement)`: text without the search text, or a replacement equal to it, leaves the text unchanged |
| JsString.ReplaceFirst | FormulaEditor/compiler.js:500 | the first occurrence of a non-empty search text is replaced, and the replacing goes on after it |
| JsString.ReplaceBetweenChars | FormulaEditor/compiler.js:500 | an empty search text puts the replacement between every two characters |
| JsString.ReplaceOfJoin | FormulaEditor/compiler.js:500 | in a join of parts without the separator, replacing the separator is joining the parts with the replacement |
| JsString.ReplaceChar | FormulaEditor/compiler.js:500 | replacing one character by another keeps the length and changes exactly the places that held that character |
| JsString.ToLower | FormulaEditor/compiler.js:411 | same length, each character lower-cased |
| JsString.ToUpper | FormulaEditor/compiler.js:95 | same length, each character upper-cased |
| JsString.FilterChars | FormulaEditor/compiler.js:314 | a character is kept exactly when it is in the text and passes the test |
| JsString.NatDigitsValue | FormulaEditor/compiler.js:309 | the decimal digits `String(n)` writes read back as `n` |
| JsString.DecimalString | FormulaEditor/compiler.js:309 | `String(n)` of an integer is non-empty, starts with `-` exactly when the integer is negative, and its digits read back as the absolute value |
| Evaluator.Dispatch | FormulaEditor/compiler.js:392-396 | a name is unavailable exactly when its registry status is not-implemented; the "Unknown function" case (compiler.js:1169-1170) is reached only by registered names that are available |
| Evaluator.UnavailableIgnoresArguments | FormulaEditor/compiler.js:392-396 | a name the registry lacks or marks not-implemented evaluates to "[NAME: Not available - requires ProcessPlan backend]" whatever its arguments would give |
| Evaluator.Eval | FormulaEditor/compiler.js:285-302 | a field always gives text, a text literal gives text, a CONCAT that gives a value gives text, no literal loops, and an unavailable function gives text whatever its arguments |
| Evaluator.Joined | FormulaEditor/compiler.js:295-296 | a CONCAT gives a value exactly when every part does, and that value is text |
| Evaluator.Compute | FormulaEditor/compiler.js:402 | only PARTITION can loop forever, and only the ASCII-limited text tests, the number built-ins and the counted built-ins can fall outside the model |
| Evaluator.Textual | FormulaEditor/compiler.js:404-564 | the text built-ins always end, and fall outside the model exactly when CONTAINS or !CONTAINS get non-ASCII text or LOWERCASE or UPPERCASE get non-ASCII text; the laws are under BuiltinLaws |
| Evaluator.NumericOf | FormulaEditor/compiler.js:597-661 | only PARTITION can loop forever; a first argument the model cannot read as a number falls outside the model; every other number built-in gives a number, and the comparisons give 0 or 1 |
| Evaluator.Logic | FormulaEditor/compiler.js:679-699 | the truth built-ins always give 0 or 1; ISTRUE of no arguments is 1, ANYTRUE and HASVALUE of none are 0 |
| Evaluator.CountedBy | FormulaEditor/compiler.js:434-444 | the counted built-ins always end and give text, fall outside the model only for RIGHT and LISTITEMRIGHT with a fractional count, LEFT gives a prefix and RIGHT a suffix |
| Evaluator.Listwise | FormulaEditor/compiler.js:719-854 | the list built-ins always end, give a number only for LISTCOUNT, and fall outside the model only for the item tests on non-ASCII text |
| Evaluator.Collect | FormulaEditor/compiler.js:398-400 | collecting argument outcomes gives one value per requested argument, or stops at an outcome without a value |
| Evaluator.CollectValues | FormulaEditor/compiler.js:399-400 | when every argument has a value, the values are collected in order and missing ones read as "" |
| Evaluator.CollectStops | FormulaEditor/compiler.js:399-400 | the first argument without a value stops the call with that outcome |
| Evaluator.StrictCall | FormulaEditor/compiler.js:398-402 | a built-in on argument values computes on all of them, or on exactly the ones it reads, padded with "" |
| Evaluator.JoinedTexts | FormulaEditor/compiler.js:295-296 | joining values is the concatenation of their stringified texts |
| Evaluator.JoinedStops | FormulaEditor/compiler.js:295-296 | the first part without a value is the outcome of the whole CONCAT |
| Evaluator.EvalConcat | FormulaEditor/compiler.js:295-296 | a CONCAT node evaluates to the concatenation of its children's stringified values |
| Evaluator.EvalStrictCall | FormulaEditor/compiler.js:298-299 | a FUNCTION node of a strict built-in evaluates to the built-in on its arguments' values |
| Evaluator.IfTakesFirst | FormulaEditor/compiler.js:666-670 | the first condition `toBoolean` accepts gives its partner, whatever follows |
| Evaluator.IfSkipsFirst | FormulaEditor/compiler.js:666-671 | a rejected first condition drops its pair |
| Evaluator.IfConditionStops | FormulaEditor/compiler.js:667 | a condition without a value is the outcome |
| Evaluator.IfNoneHolds | FormulaEditor/compiler.js:666-676 | when no condition holds, the unpaired last argument is the value and is never tested as a condition; with an even count the result is "" |
| Evaluator.EvaluateIf | FormulaEditor/compiler.js:664-677 | the loop over condition-result pairs gives exactly `IfOf` |
| Evaluator.EvalIfTaken | FormulaEditor/compiler.js:664-677 | an IF node whose first condition holds evaluates to its first result |
| Evaluator.EvalIfSkipped | FormulaEditor/compiler.js:664-677 | an IF node whose first condition fails evaluates as the IF of the remaining arguments |
| Evaluator.FirstValueStep | FormulaEditor/compiler.js:702-705 | FIRSTVALUE gives the first argument's trimmed text when that is not blank, and otherwise looks at the rest |
| Evaluator.FirstValueTrimmed | FormulaEditor/compiler.js:701-707 | whatever FIRSTVALUE gives is text that trims to itself |
| Evaluator.EvaluateFirstValue | FormulaEditor/compiler.js:701-707 | the loop over the argument trees gives exactly `FirstValueOf` |
| TextFunctions.LeftOf | FormulaEditor/compiler.js:446-451 | without the marker, the whole text; with it, the prefix as long as `indexOf`, which the marker follows; no occurrence of the marker starts inside it |
| TextFunctions.RightOf | FormulaEditor/compiler.js:453-458 | without the marker, ""; with it, the suffix after the first occurrence: as long as the text minus `indexOf` minus the marker |
| TextFunctions.LeftOfLast | FormulaEditor/compiler.js:460-465 | without the marker, the whole text; with it, the prefix as long as `lastIndexOf`, which the marker follows, and no occurrence starts after it |
| TextFunctions.RightOfLast | FormulaEditor/compiler.js:467-472 | without the marker, ""; with it, the suffix after the last occurrence: as long as the text minus `lastIndexOf` minus the marker |
| TextFunctions.MarkerSplit | FormulaEditor/compiler.js:446-458 | with the marker present, LEFTOF ++ marker ++ RIGHTOF is the text; without it, LEFTOF is the text and RIGHTOF is "" |
| TextFunctions.LastMarkerSplit | FormulaEditor/compiler.js:460-472 | the same for the LAST variants, and RIGHTOFLAST holds no further occurrence of a non-empty marker |
| TextFunctions.ParseBetween | FormulaEditor/compiler.js:529-538 | PARSE gives "" when the left marker is absent |
| TextFunctions.ParseIsCutTwice | FormulaEditor/compiler.js:529-538 | PARSE is LEFTOF the right marker of RIGHTOF the left marker |
| TextFunctions.CollapseSpaces | FormulaEditor/compiler.js:493 | every blank left is one space, no two blanks are adjacent, and blanks at either end survive exactly when they were there |
| TextFunctions.CollapseOfWord | FormulaEditor/compiler.js:493 | text without blanks is left as it is |
| TextFunctions.CollapseSplit | FormulaEditor/compiler.js:493 | a run of blanks between two texts becomes one space, and each side is collapsed on its own |
| TextFunctions.CollapseKeepsText | FormulaEditor/compiler.js:493 | collapsing blanks keeps the non-blank characters in order |
| TextFunctions.TrimText | FormulaEditor/compiler.js:492-494 | TRIM's result has no blank at either end, and inside only single spaces; it is "" exactly when the text is all blanks |
| TextFunctions.TrimTextOfWord | FormulaEditor/compiler.js:492-494 | a word between blanks trims to the word |
| TextFunctions.TrimTextSplit | FormulaEditor/compiler.js:492-494 | a run of blanks between two non-blank ends becomes one space, and each side is trimmed on its own; with the row above this fixes TRIM on every text |
| TextFunctions.TrimTextKeepsText | FormulaEditor/compiler.js:492-494 | TRIM keeps the non-blank characters in order |
| TextFunctions.RemoveSpaces | FormulaEditor/compiler.js:513-515 | REMOVESPACES leaves no blank, and a character is left exactly when the text has it and it is not a blank |
| TextFunctions.RemoveSpacesLaws | FormulaEditor/compiler.js:513-515 | REMOVESPACES works piece by piece and keeps text without blanks whole, so the non-blank characters stay in order |
| TextFunctions.Without | FormulaEditor/compiler.js:503-511 | removing characters never lengthens the text |
| TextFunctions.WithoutChars | FormulaEditor/compiler.js:503-511 | a character survives exactly when it is in the text and not among those removed |
| TextFunctions.SplitJoinRemoves | FormulaEditor/compiler.js:508 | `split(c).join('')` removes every `c` |
| TextFunctions.RemoveChars | FormulaEditor/compiler.js:503-511 | the REMOVECHARS loop removes exactly the listed characters |
| TextFunctions.RemoveSymbols | FormulaEditor/compiler.js:521-523 | a character is left exactly when the text has it and it is an ASCII letter, a digit or a blank |
| TextFunctions.RemoveSymbolsLaws | FormulaEditor/compiler.js:521-523 | REMOVESYMBOLS works piece by piece and keeps letters, digits and blanks whole, in order |
| TextFunctions.RemoveTags | FormulaEditor/compiler.js:526 | removing `<...>` adds no character, leaves no `<` before a `>`, and leaves text without `<`, or without `>`, as it is |
| TextFunctions.RemoveTagsAt | FormulaEditor/compiler.js:526 | on `a<t>b` with no `<` in `a` and no `>` in `t`: `a` stays, the tag goes, and `b` is treated alike |
| TextFunctions.NormalizeText | FormulaEditor/compiler.js:525-527 | no blank is left and no `<` before a `>` |
| TextFunctions.NormalizeTextOfPlain | FormulaEditor/compiler.js:525-527 | without `<`, or without `>`, NORMALIZETEXT is REMOVESPACES |
| TextFunctions.NormalizeTextAt | FormulaEditor/compiler.js:525-527 | on `a<t>b` with no `<` in `a` and no `>` in `t`: `a` without its blanks, then NORMALIZETEXT of `b` |
| TextFunctions.CloseAngle | FormulaEditor/compiler.js:526 | the first `>`, or -1 exactly when there is none |
| ListFunctions.Items | FormulaEditor/compiler.js:730 | splitting at `;` gives at least one item |
| ListFunctions.ItemsFree | FormulaEditor/compiler.js:730 | no item holds a `;` |
| ListFunctions.Present | FormulaEditor/compiler.js:748 | `filter(s => s)` keeps exactly the non-empty items |
| ListFunctions.PresentItemsOfJoin | FormulaEditor/compiler.js:748-750 | the non-empty items of a `;`-join of non-empty, `;`-free items are those items |
| ListFunctions.ListUnique | FormulaEditor/compiler.js:765-768 | LISTUNIQUE read back as a list is the input's non-empty items de-duplicated |
| ListFunctions.ListMerge | FormulaEditor/compiler.js:747-751 | LISTMERGE read back as a list is the non-empty items of both lists, in order, de-duplicated |
| ListFunctions.ListUniqueItems | FormulaEditor/compiler.js:765-768 | LISTUNIQUE's items are the input's non-empty items, each once, in order of first appearance |
| ListFunctions.ListMergeItems | FormulaEditor/compiler.js:747-751 | LISTMERGE's items are the non-empty items of either list, each once, in order of first appearance |
| ListFunctions.KeepIn | FormulaEditor/compiler.js:762 | keeps exactly the items in the set, in order |
| ListFunctions.KeepOut | FormulaEditor/compiler.js:756 | keeps exactly the items not in the set, in order |
| ListFunctions.KeepSplits | FormulaEditor/compiler.js:753-763 | together, the kept-in and kept-out items are the whole list, counted with multiplicity |
| ListFunctions.ListDiff | FormulaEditor/compiler.js:753-757 | LISTDIFF read back as a list is the first list's non-empty items that are not items of the second, in order |
| ListFunctions.ListIntersect | FormulaEditor/compiler.js:759-763 | LISTINTERSECT read back as a list is the first list's non-empty items that are items of the second, in order |
| ListFunctions.DiffIntersectPartition | FormulaEditor/compiler.js:753-763 | every non-empty item of the first list lands in exactly one of LISTDIFF and LISTINTERSECT, by whether it is an item of the second |
| ListFunctions.CountItems | FormulaEditor/compiler.js:723 | LISTCOUNT of one argument counts at most the items |
| ListFunctions.ListAsLines | FormulaEditor/compiler.js:770-772 | LISTASLINES keeps the length and turns exactly each `;` into a line break |
| ListFunctions.ListJoin | FormulaEditor/compiler.js:735-745 | LISTJOIN is REPLACE of `;` by the separator; a text without `;`, or a separator meaning `;`, is left as it is |
| ListFunctions.PlainSeparator | FormulaEditor/compiler.js:736-742 | a separator without `p` or `P` is used literally |
| ListFunctions.SeparatorKeywords | FormulaEditor/compiler.js:738-742 | the separator `ppnewline`, `ppcrlf`, `pptab` or `ppsp`, in any case, becomes a line feed, CR LF, a tab or a space (the keywords of functions.js:411) |
| ListFunctions.ReplaceWordShort | FormulaEditor/compiler.js:739-742 | a text shorter than the keyword is not changed by its replace |
| ListFunctions.ReplaceWordWhole | FormulaEditor/compiler.js:739-742 | the keyword alone, in any case, is replaced by its character |
| ListFunctions.ListJoinSemicolon | FormulaEditor/compiler.js:735-745 | LISTJOIN with `;` gives back the list |
| ListFunctions.Pick | FormulaEditor/compiler.js:728-733 | index 0 gives the whole list joined by `;`; a whole index 1..n gives that item; any other index gives "" |
| ListFunctions.PickFromWhole | FormulaEditor/compiler.js:728-733 | picking from the whole-list text is picking from the list |
| ListFunctions.Lines | FormulaEditor/compiler.js:776 | one line per piece between line breaks |
| ListFunctions.LinesOfCrLf | FormulaEditor/compiler.js:776 | lines without line feeds joined with CR LF split back into exactly those lines |
| ListFunctions.LinesDropCr | FormulaEditor/compiler.js:776 | each line but the last loses the carriage return before its line feed, the last keeps all of its text |
| ListFunctions.WordEnd | FormulaEditor/compiler.js:783 | a word runs up to the first blank |
| ListFunctions.Words | FormulaEditor/compiler.js:781-786 | WORDSPLIT's words are non-empty and hold no blank |
| ListFunctions.WordsOfWord | FormulaEditor/compiler.js:783 | text with no blank is one word, when not empty |
| ListFunctions.WordsOfBlanks | FormulaEditor/compiler.js:783 | text made of blanks has no words |
| ListFunctions.WordsSplitAtBlank | FormulaEditor/compiler.js:783 | a blank separates: the words before it, then the words after it; with the two rows above this fixes the words of every text |
| ListFunctions.Affix | FormulaEditor/compiler.js:796-806 | each item gets the prefix and the suffix, same count |
| ListFunctions.AffixItems | FormulaEditor/compiler.js:796-806 | appending or prepending a `;`-free text keeps one item per item |
| ListFunctions.SelectItems | FormulaEditor/compiler.js:808-824 | the items kept are exactly those whose lower-cased text contains, starts with or ends with the lower-cased search text; the result is `Filter` with that test, so order and repeats are kept |
| ListFunctions.ItemsLeft | FormulaEditor/compiler.js:826-830 | each item becomes its prefix of the clamped count |
| ListFunctions.ItemsRight | FormulaEditor/compiler.js:832-836 | each item becomes its suffix of the clamped count |
| ListFunctions.ItemsLeftOf | FormulaEditor/compiler.js:838-845 | each item becomes its LEFTOF |
| ListFunctions.ItemsRightOf | FormulaEditor/compiler.js:847-854 | each item becomes its RIGHTOF |
| ListFunctions.ItemsCutAtMarker | FormulaEditor/compiler.js:838-854 | for each item holding the marker, LISTITEMLEFTOF ++ marker ++ LISTITEMRIGHTOF is the item |
| Lists.Filter | FormulaEditor/compiler.js:748 | keeps exactly the elements that pass, in order, never more |
| Lists.FilterSplitsMultiset | FormulaEditor/compiler.js:753-763 | what passes and what fails together are the whole list, with multiplicity |
| Lists.Dedup | FormulaEditor/compiler.js:767 | `[...new Set(list)]` keeps exactly the elements of the list |
| Lists.DedupSpec | FormulaEditor/compiler.js:767 | the de-duplicated list has the same elements, no duplicates, and keeps the order of first appearance |
| Lists.DedupOfDistinct | FormulaEditor/compiler.js:767 | a list without duplicates is unchanged |
| Partition.PiecesShape | FormulaEditor/compiler.js:626-637 | for a positive number and divisor, the pieces sum to the number, all but the last equal the divisor, each is between 1 and the divisor, and their count is the number divided by the divisor, rounded up |
| Partition.PiecesSum | FormulaEditor/compiler.js:631-635 | the pieces sum to the number |
| Partition.PiecesBounds | FormulaEditor/compiler.js:631-635 | every piece is in 1..divisor and all but the last are the divisor |
| Partition.PiecesCount | FormulaEditor/compiler.js:631-635 | there are as many pieces as the divisor fits into the number, rounded up |
| Partition.Partition | FormulaEditor/compiler.js:629-635 | the while loop on `remaining` gives exactly `Pieces`, when it ends |
| Partition.PiecesText | FormulaEditor/compiler.js:636 | no pieces give "" |
| BuiltinLaws.ContainsComplement | FormulaEditor/compiler.js:410-420 | !CONTAINS is 1 exactly when CONTAINS is 0 |
| BuiltinLaws.ContainsIgnoresCase | FormulaEditor/compiler.js:410-414 | CONTAINS ignores the case of the search text (ASCII) |
| BuiltinLaws.ComparisonMirrors | FormulaEditor/compiler.js:640-654 | GTNUM(x; y) is LTNUM(y; x), and LTENUM(x; y) is GTENUM(y; x) |
| BuiltinLaws.ComparisonComplement | FormulaEditor/compiler.js:644-650 | GTENUM is 1 exactly when LTNUM is 0, and LTNUM and GTNUM are never both 1 |
| BuiltinLaws.LtNumTransitive | FormulaEditor/compiler.js:648-650 | LTNUM is transitive |
| BuiltinLaws.BetweenIsBothBounds | FormulaEditor/compiler.js:640-661 | BENUM is 1 exactly when GTENUM with the low bound and LTENUM with the high bound both are |
| BuiltinLaws.HasValueComplement | FormulaEditor/compiler.js:679-687 | HASVALUE is 1 and ISEMPTY is 0 exactly when the text is not all blanks |
| BuiltinLaws.DoubleNegation | FormulaEditor/compiler.js:689-699 | NOT always gives a value, and NOT of NOT is ISTRUE |
| BuiltinLaws.AnyTrueDeMorgan | FormulaEditor/compiler.js:689-695 | ANYTRUE is 1 exactly when ISTRUE of the negations is 0 |
| BuiltinLaws.IsTrueThenAnyTrue | FormulaEditor/compiler.js:689-695 | on a non-empty argument list, ISTRUE implies ANYTRUE |
| BuiltinLaws.IsTrueCall | FormulaEditor/compiler.js:689-691 | ISTRUE is 1 exactly when every argument is true to `toBoolean` |
| BuiltinLaws.AnyTrueCall | FormulaEditor/compiler.js:693-695 | ANYTRUE is 1 exactly when some argument is true to `toBoolean` |
| BuiltinLaws.EqualsPair | FormulaEditor/compiler.js:422-426 | EQUALS of two values is 1 exactly when their texts are equal |
| BuiltinLaws.NotEqualsPair | FormulaEditor/compiler.js:428-432 | !EQUALS of two values is 1 exactly when their texts differ |
| BuiltinLaws.LeftPrefix | FormulaEditor/compiler.js:434-438 | LEFT of a count within the text is that prefix |
| BuiltinLaws.RightSuffix | FormulaEditor/compiler.js:440-444 | RIGHT of length - k is the suffix from k, and the two halves make the text |
| BuiltinLaws.WholeText | FormulaEditor/compiler.js:434-444 | LEFT and RIGHT of a count at least the length give the whole text |
| BuiltinLaws.LowercaseIdempotent | FormulaEditor/compiler.js:478-480 | LOWERCASE twice is LOWERCASE once |
| BuiltinLaws.AppendReadsBack | FormulaEditor/compiler.js:404-408 | APPEND with `;` of `;`-free values reads back, as a list, their non-empty texts |
| BuiltinLaws.ListIndexZero | FormulaEditor/compiler.js:731 | LISTINDEX 0 gives the whole list |
| BuiltinLaws.ListIndexCall | FormulaEditor/compiler.js:728-733 | LISTINDEX of a whole number picks from the list's items |
| BuiltinLaws.ListIndexOfJoin | FormulaEditor/compiler.js:728-733 | LISTINDEX k of a join of `;`-free parts is the k-th part |
| BuiltinLaws.LinesOfListAsLines | FormulaEditor/compiler.js:770-779 | LINESPLIT of LISTASLINES is LISTINDEX of the list, for items without line breaks |
| BuiltinLaws.PartitionOfWholeNumbers | FormulaEditor/compiler.js:626-637 | PARTITION gives "" for a number ≤ 0, never ends for a positive number with a divisor ≤ 0, and otherwise joins the pieces with `;` |
| BuiltinLaws.FloorAndCeiling | FormulaEditor/compiler.js:597-603 | FLOOR and CEILING agree on whole numbers and CEILING is one more otherwise |
| BuiltinLaws.ListCountOfItems | FormulaEditor/compiler.js:719-726 | LISTCOUNT of a `;`-join is the number of its parts that are not blank |
| BuiltinLaws.CeilFromFloor | FormulaEditor/compiler.js:602 | the ceiling is the floor, plus one unless the decimal is whole |
| EditorText.StripComments | FormulaEditor/editor.js:1068-1071 | a text without `//` is unchanged |
| EditorText.StripRemovesAll | FormulaEditor/editor.js:1068-1071 | no `//` is left, whether it was inside quotes or not |
| EditorText.StripKeepsLineBreaks | FormulaEditor/editor.js:1068-1071 | every line break survives |
| EditorText.StripIdempotent | FormulaEditor/editor.js:1068-1071 | stripping twice is stripping once |
| EditorText.CommentCutsLine | FormulaEditor/editor.js:1070 | a comment at the end of a line is cut up to the end |
| EditorText.CommentStart | FormulaEditor/editor.js:1070 | the first `//` at or after `i`, or the end |
| EditorText.FirstAt | FormulaEditor/editor.js:1070 | the first `c` at or after `i`, or the end, with no `c` in between: the end of a line for a line break, and the `]` that closes a field reference (editor.js:1401) |
| EditorText.LastLineStart | FormulaEditor/editor.js:39-40 | the start of the last line: after the last line break, or 0 |
| EditorText.CurrentIndent | FormulaEditor/editor.js:38-43 | the indent is a prefix of the last line made of spaces and tabs only, and it stops at the line's end or at a character that is neither |
| EditorText.LastBreakOfLine | FormulaEditor/editor.js:39-40 | the last line starts after the last line break |
| EditorText.CurrentIndentOfLastLine | FormulaEditor/editor.js:38-43 | only the last line counts |
| EditorText.CurrentIndentOfLine | FormulaEditor/editor.js:41-42 | the indent is exactly the line's leading spaces and tabs |
| EditorText.CurrentIndentOfIndent | FormulaEditor/editor.js:41-42 | a last line made only of spaces and tabs is all indent |
| EditorText.GetIndentLevel | FormulaEditor/editor.js:1048-1064 | the loop gives the clamped level, which is the count of `(` outside `[ ]` not matched by a later `)` |
| EditorText.LevelCountsUnmatched | FormulaEditor/editor.js:1048-1064 | the clamped level equals the balance minus its lowest point, so it is never negative |
| EditorText.LowestBalance | FormulaEditor/editor.js:1059 | the lowest point is at most 0 and at most the balance |
| EditorText.LevelAfter | FormulaEditor/editor.js:1048-1064 | the level after `i` characters is at most `i`, and 0 when none of them is a `(` |
| EditorText.MatchAt | FormulaEditor/editor.js:1401 | a match of the field pattern at `a` is a `[[...]]` starting there, whose closing brackets start where the match says |
| EditorText.FieldsTrimmed | FormulaEditor/editor.js:1400-1410 | every name the pattern finds is already trimmed |
| EditorText.CutIsTrim | FormulaEditor/editor.js:1401-1406 | cutting the blanks one at a time from either end, as the pattern's lazy group and surrounding `\s*` do, gives `trim` |
| EditorText.NameIsTrim | FormulaEditor/editor.js:1401-1406 | the name the pattern captures between `[[` and `]]` is `trim` of the text between them |
| EditorText.ReferenceFound | FormulaEditor/editor.js:1400-1410 | scanning from a point with no `[` before a reference `[[...]]`: the set of names is that reference's name plus what the scan finds after its `]]` |
| EditorText.FirstReference | FormulaEditor/editor.js:1400-1410 | for the first reference of the code, preceded by no `[`: the names are its trimmed inside plus the names after its `]]` |
| EditorText.FieldsExactly | FormulaEditor/editor.js:1400-1410 | a name is found if and only if it is the name of a reference at which the scan stops |
| EditorText.VisitedFound | FormulaEditor/editor.js:1403-1405 | every reference the scan reaches contributes its name |
| EditorText.FieldsAreReferences | FormulaEditor/editor.js:1400-1410 | every name found is the trimmed inside of some `[[ ... ]]` of the code |
| EditorText.SingleField | FormulaEditor/editor.js:1400-1410 | `[[ x ]]` alone yields exactly the trimmed name |
| EditorText.FieldListSound | FormulaEditor/editor.js:1400-1410 | every listed name is trimmed and names a reference |
| EditorText.ExtractFields | FormulaEditor/editor.js:1400-1410 | the fields are strictly ascending (so free of duplicates), exactly the names the pattern matches, each trimmed and naming a reference |
| EditorText.KeptValues | FormulaEditor/editor.js:1417-1428 | with fields, the values are kept for exactly the listed fields: an earlier value stays, a new field gets ""; with none, nothing changes |
| Pipeline.KeptValuesBindFields | FormulaEditor/editor.js:1427-1428 | a listed field reads back its earlier value, or "" |
| EditorText.KeptValuesIdempotent | FormulaEditor/editor.js:1417-1428 | keeping twice is keeping once |
| ParamHint.GetCurrentFunctionContext | FormulaEditor/editor.js:296-354 | the scan gives exactly `FunctionContext`: the stack of open calls, or none |
| ParamHint.ScanStep | FormulaEditor/editor.js:305-350 | one pass of the loop is `Step` |
| ParamHint.FunctionContext | FormulaEditor/editor.js:352-353 | a returned stack is never empty |
| ParamHint.Step | FormulaEditor/editor.js:305-350 | each pass moves forward |
| ParamHint.NextParam | FormulaEditor/editor.js:339-341 | `;` raises the innermost call's parameter index by one and changes nothing else |
| ParamHint.CallAt | FormulaEditor/editor.js:318-335 | a call is found only at a `(` |
| ParamHint.CallNameKnown | FormulaEditor/editor.js:328 | a call is pushed only for a registered name |
| ParamHint.ContextKnown | FormulaEditor/editor.js:318-335 | every frame on the stack names a registered function |
| ParamHint.ArgumentsCounted | FormulaEditor/editor.js:339-341 | without brackets or parentheses, the innermost parameter index grows by the number of `;` |
| ParamHint.HintInsideCall | FormulaEditor/editor.js:305-353 | in `=F(args` the context is F with the count of `;` as parameter index |
| ParamHint.HintAfterCall | FormulaEditor/editor.js:344-346 | after `=F(args)` there is no context |
| ParamHint.PlainParenEndsHint | FormulaEditor/editor.js:344-346 | in `=F((b)` the `)` of the plain parenthesis pops F, so there is no context |
| ParamHint.ClosedAfter | FormulaEditor/editor.js:344-346 | the final `)` pops the one open call |
| Highlighter.Tokenize | FormulaEditor/editor.js:552-694 | the loop gives `Highlight`; its tokens spell out the code and each has the shape of its kind |
| Highlighter.HighlightSpec | FormulaEditor/editor.js:552-694 | the tokens spell out the code exactly, and each has the shape of its kind |
| Highlighter.HighlightLossless | FormulaEditor/editor.js:552-694 | the tokens from any point spell out the rest of the code |
| Highlighter.HighlightShaped | FormulaEditor/editor.js:552-694 | every token has its kind's shape: comments start with `//` and hold no line break, numbers start with a digit, function tokens are a registered name with `(` or a `)`, and so on |
| Highlighter.ScanShaped | FormulaEditor/editor.js:557-690 | one token has its kind's shape |
| Highlighter.Scan | FormulaEditor/editor.js:557-690 | each token takes at least one character, and its text is the code it spans |
| Highlighter.ScanRun | FormulaEditor/editor.js:559-651 | a run token takes at least one character, and its text is what it spans |
| Highlighter.ScanSingle | FormulaEditor/editor.js:653-690 | a one-character token takes exactly one character |
| Highlighter.Word | FormulaEditor/editor.js:619-651 | a word, or a function name with its `(`, is the text it spans |
| Highlighter.RunEnd | FormulaEditor/editor.js:571 | a run stops at the end or at the first character outside it |
| Highlighter.Opened | FormulaEditor/editor.js:653-660 | `(` raises every open function's counter by one |
| Highlighter.CloseInnermost | FormulaEditor/editor.js:662-675 | `)` is a function token exactly when the innermost counter is 1, which is then removed; otherwise every counter goes down by one |
| Highlighter.DescendingKept | FormulaEditor/editor.js:629-675 | counters stay positive and never grow from outer to inner across a push, a `(` and a `)` |
| Highlighter.CallHighlighted | FormulaEditor/editor.js:637-675 | in `name(args)` with a registered name, the first token is the function `name(` and the last is the function's `)` |
| Highlighter.ReadRun | FormulaEditor/editor.js:571-574 | the run loop collects exactly the run |
| Highlighter.OpenAll | FormulaEditor/editor.js:654-656 | the counter loop on `(` gives `Opened` |
| Highlighter.CloseOne | FormulaEditor/editor.js:663-671 | the counter loop on `)` gives `Closed` |
| Highlighter.ScanToken | FormulaEditor/editor.js:557-690 | one pass of the loop body gives `Scan` |
| Highlighter.ReadWord | FormulaEditor/editor.js:627-634 | the name-or-function decision gives `Word` |
| Highlighter.ReadRunToken | FormulaEditor/editor.js:559-651 | the run branches give `ScanRun` |
| Highlighter.ReadSingle | FormulaEditor/editor.js:653-690 | the one-character branches give `ScanSingle` |
| Formatter.Tabs | FormulaEditor/editor.js:33-35 | `INDENT_UNIT.repeat(n)` is n tabs |
| Formatter.Advance | FormulaEditor/editor.js:468-480 | the scanner remembers the character, and a character that is no quote or bracket changes nothing else |
| Formatter.Normalize | FormulaEditor/editor.js:465-489 | the corrected first pass never lengthens the text |
| Formatter.NormalizeFormula | FormulaEditor/editor.js:465-489 | the first-pass loop gives `Normalize`, the corrected first pass |
| Formatter.NormalizeIdempotent | FormulaEditor/editor.js:458-489 | the corrected first pass over its own output changes nothing (the pass as written does not have this property: see Findings) |
| Formatter.NormalizeDropsLayout | FormulaEditor/editor.js:485-488 | line breaks and tabs outside strings and brackets are dropped |
| Formatter.Break | FormulaEditor/editor.js:525 | a break is one line break and `level` tabs |
| Formatter.LayStep | FormulaEditor/editor.js:520-542 | the second pass inserts only line breaks and tabs, only outside strings and brackets; before a character only at `)` when the line is to be broken; after one only after `(` not followed by `)`, and always after `,` and `;`; the level rises at `(`, falls at `)` and is kept elsewhere |
| Formatter.LayOut | FormulaEditor/editor.js:498-543 | the second-pass loop gives `Layout` |
| Formatter.LayChar | FormulaEditor/editor.js:499-542 | one pass of the second loop adds the layout before, the character, and the layout after |
| Formatter.CloseParen | FormulaEditor/editor.js:527-537 | `)` gets a break before it exactly when the last line has content and the text does not end with `(` |
| Formatter.ClosesLineAgrees | FormulaEditor/editor.js:530-534 | the recursive test for "the last line has content and does not end with `(`" is the source's `trim`/`trimEnd` test |
| Formatter.LineHasContentAgrees | FormulaEditor/editor.js:530-532 | the last line has content exactly when it does not trim to "" |
| Formatter.EndsOpenAgrees | FormulaEditor/editor.js:534 | the text ends open exactly when `trimEnd` ends with `(` |
| Formatter.FormatFormula | FormulaEditor/editor.js:457-546 | the formatter gives `Format`, with the first pass's escape test as corrected under Findings |
| Formatter.LayoutUndone | FormulaEditor/editor.js:498-543 | the corrected first pass over a laid-out text gives back the normalized text |
| Formatter.FormatIdempotent | FormulaEditor/editor.js:458-459 | with the corrected first pass, formatting twice is formatting once |
| Formatter.FormatKeepsText | FormulaEditor/editor.js:457-546 | formatting with the corrected first pass keeps every non-blank character, in order |
| Formatter.LayoutSolid | FormulaEditor/editor.js:498-543 | the layout keeps every non-blank character, in order |
| Formatter.NormalizeSolid | FormulaEditor/editor.js:465-489 | the corrected first pass keeps every non-blank character, in order |
| Formatter.LayoutOfCall | FormulaEditor/editor.js:520-537 | `F(x)` is laid out as `F(`, a break with one tab, `x`, a break, `)` |
| Formatter.LayoutPlain | FormulaEditor/editor.js:540-541 | text without `(`, `)`, `,` or `;` is laid out as it is |
| Formatter.LayoutOfPlain | FormulaEditor/editor.js:540-541 | the same, from the start |
| Formatter.NormalizeWritten | FormulaEditor/editor.js:465-489 | the first pass as written never lengthens the text |
| Formatter.NormalizeWrittenSolid | FormulaEditor/editor.js:465-489 | the first pass as written keeps every non-blank character, in order |
| Formatter.FormatWrittenKeepsText | FormulaEditor/editor.js:457-546 | `formatFormula` as written keeps every non-blank character, in order |
| Formatter.NormalizeWrittenOnce | FormulaEditor/editor.js:469 | as written, `\ "a b"` normalizes to `\"a b"`, for any characters `a`, `b` that neither pass treats specially |
| Formatter.NormalizeWrittenTwice | FormulaEditor/editor.js:469 | as written, `\"a b"` normalizes to `\"ab"`, for any such `a`, `b` |
| Formatter.FormatWrittenNotIdempotent | FormulaEditor/editor.js:469 | as written, formatting `\ "a b"` twice differs from formatting it once, for any such `a`, `b` |
| Pipeline.Compile | FormulaEditor/compiler.js:1229-1250 | the box asks for a formula exactly when the formula is blank |
| Pipeline.Run | FormulaEditor/compiler.js:1236-1257 | a non-blank formula never shows the prompt |
| Pipeline.CompileFormula | FormulaEditor/compiler.js:1225-1258 | the compile path (strip, tokenize loop, parser object, evaluation) gives `Compile` |
| Pipeline.OutputText | FormulaEditor/compiler.js:1250-1254 | a failure shows "Error: " and the message; a value shows its text |
| Pipeline.TrailingCommentIgnored | FormulaEditor/compiler.js:1236 | a `//` comment at the end of the last line changes nothing |
| Pipeline.CommentOnlyShowsNothing | FormulaEditor/compiler.js:1229-1250 | a formula that is only a comment shows "" |
| Pipeline.NoTokensShowNothing | FormulaEditor/compiler.js:184-192 | no tokens parse to an empty CONCAT, which shows "" |
| Pipeline.LoneNameFails | FormulaEditor/compiler.js:1253-1254 | a lone function name shows "Error: Expected LPAREN but got EOF" |
| Parser.LoneNameUnparsed | FormulaEditor/compiler.js:231-235 | a function token with nothing after it fails with "Expected LPAREN but got EOF" |
| Pipeline.UnfilledFieldEchoes | FormulaEditor/compiler.js:292-293 | a field without a value shows its own `[[name]]`, which compiles to itself again |
| Lexer.FieldRelexes | FormulaEditor/compiler.js:24-35 | `[[name]]` lexes to the one FIELD token `name` |
| Pipeline.LoneFieldShown | FormulaEditor/compiler.js:292-293 | a lone field token without a value shows `[[name]]` |

## Left out

- The DOM and the rest of the user interface are not part of this model:
  - listeners and autocomplete;
  - the rendering of tokens, hints and fields as HTML, and `escapeHtml`;
  - notifications and CSS classes;
  - settings, themes and saved formulas in `localStorage`;
  - import, export and the clipboard.

  `compileFormula` is modelled by what its output box shows (`Pipeline.Display`).
- The cursor is not modelled. `getCurrentFunctionContext` takes the text
  before the cursor as its parameter.
- The highlighter and the hint use the registry's set of names. Both
  receive it as a parameter `functions`.
- Floating point is not modelled. Values hold whole numbers (`Num(int)`),
  and number literals and `toNumber` results are decimals. An outcome is
  `Outside`, meaning no claim is made, when a value needs more than
  fifteen significant digits, is not whole where a whole number is
  returned, or is NaN or Infinity. A `toNumber` result other than 0 that
  is smaller than 10^-307 in size, where doubles lose digits, is
  `Outside` too, unless it is at most 2^-1075, which reads as 0.
- These built-ins evaluate to `Outside`, because they rely on things not
  modelled here:
  - regular expressions: REGEXFIND, REGEXWORDSONLY, LISTITEMREGEX,
    EMAILSPLIT, NUM, NUMSPLIT and TITLECASE;
  - Unicode normalisation: REMOVEDIACRITICS;
  - URI encoding: URLENCODE;
  - `Function` evaluation: CALC;
  - floating-point rounding: ROUND, MAX, MIN and SUM;
  - randomness: RANDOMNUM;
  - the host date parser and clock: YEAR, MONTH, MONTHDAY and every DATE*,
    *DATE, MONTHLASTDAY and FISCAL* function;
  - JSON: every JSON* function;
  - FORMAT, `formatNumber`, and both `formatDate`s.
- Case mapping is ASCII only. LOWERCASE, UPPERCASE, CONTAINS and the
  LISTITEM tests are `Outside` for non-ASCII text.
- A character of a Dafny string stands for one UTF-16 code unit. Texts
  outside the Basic Multilingual Plane, whose characters are two code
  units in JavaScript, are not modelled.
- RIGHT and LISTITEMRIGHT with a count that is not whole are `Outside`.
- Inherited object keys are not modelled. The source's lookups would find
  names such as `constructor` or `__proto__` on `FUNCTION_DATA` and on
  the field values through the prototype. The model treats such names as
  absent.
- `peek` in `FormulaParser` is never called and is not modelled.
- Runtime exceptions other than the parser's are not modelled. The case
  code holds none for the modelled built-ins.
- The two loops that never end are modelled as outcomes, not excluded:
  - a lone bracket gives `Lexer.Stuck`;
  - PARTITION of a positive number by a divisor ≤ 0 gives
    `Evaluator.Diverges`;
  - both show as `Pipeline.Hangs`.

  `Partition.Partition`, the loop itself, requires the divisor to be
  positive when the number is.
- Formatter.FormatFormula: the formatter methods implement the corrected
  first pass (see Findings). So do `Formatter.Normalize`,
  `Formatter.NormalizeFormula`, `Formatter.NormalizeIdempotent`,
  `Formatter.LayoutUndone`, `Formatter.FormatIdempotent`,
  `Formatter.FormatKeepsText` and `Formatter.NormalizeSolid`: what they
  state is not promised of the source's pass. The first pass as written
  is kept as `Formatter.NormalizeWritten` and `Formatter.FormatWritten`.
  Of those, only never lengthening the text and keeping its non-blank
  characters are proved; idempotence fails (see Findings).
- `stringChar` starts as `''` in the source. The scanner starts with a
  quote that is never read outside a string.
- No lemma is about an individual registered name. The registry table
  (`Registry.FunctionData`) is transcribed whole, and its properties are
  stated for every name.

## Findings

| source | as written | input that shows it | evidently intended | confidence | as-written member | corrected member |
|---|---|---|---|---|---|---|
| FormulaEditor/editor.js:469 | the first pass decides whether a quote is escaped by the input character before it, `formula[i-1]`, even when the pass dropped that character | `\ "a b"` (backslash, space, quoted `a b`): formatting once gives `\"a b"`, where the backslash now sits next to the quote; formatting that again reads the quote as escaped, drops the space inside, and gives `\"ab"` | the comment at editor.js:458-459 promises output that does not depend on the input's formatting, so formatting a formatted formula should change nothing; the escape test should look at the last character kept | not executed | Formatter.FormatWrittenNotIdempotent | Formatter.FormatIdempotent |
