/** The evaluator (`FormulaEvaluator`): a tree and the field values give a
    value. Literals are themselves, a field is its value or its token
    text, a CONCAT joins its parts' text, and a function call first asks
    the registry whether the function is available at all, then runs the
    built-in of that name. */
module Evaluator {
  import opened Wrappers
  import opened JsString
  import opened Numbers
  import opened Lists
  import opened Ast
  import opened Values
  import Registry
  import TextFunctions
  import ListFunctions
  import Partition

  /** What evaluating gives: a value; no value because the source's loop
      never ends; or a value this model does not determine (a built-in or
      an argument outside what is modelled). */
  datatype Outcome = Val(v: Value) | Diverges | Outside

  /** The field values the user typed, by field name. */
  type Env = map<string, string>

  /** The built-ins that evaluate a fixed number of leading arguments, or
      all of them, before computing. */
  datatype Builtin =
    | Append | Contains | NotContains | EqualsAll | NotEqualsAll
    | Left | Right | LeftOf | RightOf | LeftOfLast | RightOfLast
    | Length | Lowercase | Uppercase | Trim | Replace | RemoveChars
    | RemoveSpaces | RemoveSymbols | NormalizeText | Parse | Enclose
    | Floor | Ceiling | Partition
    | GtNum | GteNum | LtNum | LteNum | BeNum
    | HasValue | IsEmpty | IsTrue | AnyTrue | Not
    | Split | ListCount | ListIndex | ListJoin | ListMerge | ListDiff
    | ListIntersect | ListUnique | ListAsLines | LineSplit | WordSplit
    | ItemAppend | ItemPrepend | ItemContains | ItemStartsWith | ItemEndsWith
    | ItemLeft | ItemRight | ItemLeftOf | ItemRightOf

  /** How a call of a name is evaluated. */
  datatype Kind =
    | Unavailable
    | Strict(b: Builtin)
    | IfCall
    | FirstValueCall
    | NotModelled
    | Unknown

  const StrictBuiltins: map<string, Builtin> := map[
    "APPEND" := Append, "CONTAINS" := Contains, "!CONTAINS" := NotContains,
    "EQUALS" := EqualsAll, "!EQUALS" := NotEqualsAll,
    "LEFT" := Left, "RIGHT" := Right, "LEFTOF" := LeftOf, "RIGHTOF" := RightOf,
    "LEFTOFLAST" := LeftOfLast, "RIGHTOFLAST" := RightOfLast,
    "LENGTH" := Length, "LOWERCASE" := Lowercase, "UPPERCASE" := Uppercase,
    "TRIM" := Trim, "REPLACE" := Replace, "REMOVECHARS" := RemoveChars,
    "REMOVESPACES" := RemoveSpaces, "REMOVESYMBOLS" := RemoveSymbols,
    "NORMALIZETEXT" := NormalizeText, "PARSE" := Parse, "ENCLOSE" := Enclose,
    "FLOOR" := Floor, "CEILING" := Ceiling, "PARTITION" := Partition,
    "GTNUM" := GtNum, "GTENUM" := GteNum, "LTNUM" := LtNum, "LTENUM" := LteNum,
    "BENUM" := BeNum,
    "HASVALUE" := HasValue, "ISEMPTY" := IsEmpty, "ISTRUE" := IsTrue,
    "ANYTRUE" := AnyTrue, "NOT" := Not,
    "SPLIT" := Split, "LISTCOUNT" := ListCount, "LISTINDEX" := ListIndex,
    "LISTJOIN" := ListJoin, "LISTMERGE" := ListMerge, "LISTDIFF" := ListDiff,
    "LISTINTERSECT" := ListIntersect, "LISTUNIQUE" := ListUnique,
    "LISTASLINES" := ListAsLines, "LINESPLIT" := LineSplit, "WORDSPLIT" := WordSplit,
    "LISTITEMAPPEND" := ItemAppend, "LISTITEMPREPEND" := ItemPrepend,
    "LISTITEMCONTAINS" := ItemContains, "LISTITEMSTARTSWITH" := ItemStartsWith,
    "LISTITEMENDSWITH" := ItemEndsWith, "LISTITEMLEFT" := ItemLeft,
    "LISTITEMRIGHT" := ItemRight, "LISTITEMLEFTOF" := ItemLeftOf,
    "LISTITEMRIGHTOF" := ItemRightOf
  ]

  /** The names the source has a case for that this model leaves out:
      regular expressions, Unicode case and diacritics, floating-point
      arithmetic and rounding, randomness, dates, JSON and formatting. */
  const UnmodelledNames: set<string> := {
    "TITLECASE", "REMOVEDIACRITICS", "REGEXFIND", "REGEXWORDSONLY", "URLENCODE",
    "CALC", "NUM", "NUMSPLIT", "ROUND", "MAX", "MIN", "SUM", "RANDOMNUM",
    "EMAILSPLIT", "LISTITEMREGEX",
    "YEAR", "MONTH", "MONTHDAY", "DATEPART", "DATESERIAL", "DATEDIFF", "DATEADD",
    "DATELIST", "DATETIMEMERGE", "DATEROUND", "GTDATE", "GTEDATE", "LTDATE",
    "LTEDATE", "BDATE", "MONTHLASTDAY", "FISCALMONTH", "FISCALYEAR",
    "JSONENCODE", "JSONEXTRACT", "JSONQUERY", "JSONUPDATE", "JSONINDEX",
    "JSONREMOVE", "JSONFIFO", "FORMAT"
  }

  /** How calls are evaluated, by function name. */
  type Table = string -> Kind

  /** Which case of the evaluator's switch a name reaches. */
  function Lookup(name: string): (k: Kind)
    ensures k != Unavailable
  {
    if name == "IF" then IfCall
    else if name == "FIRSTVALUE" then FirstValueCall
    else if name in StrictBuiltins then Strict(StrictBuiltins[name])
    else if name in UnmodelledNames then NotModelled
    else Unknown
  }

  /** The source's table: the registry's status check first, then the
      switch. */
  function Dispatch(name: string): (k: Kind)
    ensures k == Unavailable <==> Registry.GetFunctionStatus(name) == Registry.NotImplemented
    ensures k == Unknown ==> Registry.GetFunctionStatus(name) != Registry.NotImplemented
  {
    if Registry.GetFunctionStatus(name) == Registry.NotImplemented then Unavailable else Lookup(name)
  }

  function NotAvailable(name: string): string {
    "[" + name + ": Not available - requires ProcessPlan backend]"
  }

  function UnknownFunction(name: string): string {
    "[Unknown function: " + name + "]"
  }

  /** `fieldValues[name] ?? '[[name]]'`. */
  function FieldText(env: Env, name: string): string {
    if name in env then env[name] else "[[" + name + "]]"
  }

  // ---------------------------------------------------------------------
  // evaluation

  /** A number literal: the source returns the number itself. Only whole
      numbers a double holds exactly are modelled. */
  function NumberOutcome(d: Decimal): Outcome {
    if IsInteger(d) && Exact(d) then Val(Num(Numbers.Floor(d))) else Outside
  }

  /** `evaluate`. Evaluation has no side effects, so a call is modelled
      as its function applied to the outcomes of all its arguments: an
      argument the source never evaluates is one whose outcome the
      function does not look at. */
  function Eval(n: Node, env: Env, table: Table): (r: Outcome)
    ensures n.Field? ==> r.Val? && r.v.Str?
    ensures n.Literal? ==> r != Diverges && (n.lit.TextLit? ==> r.Val? && r.v.Str?)
    ensures n.Concat? && r.Val? ==> r.v.Str?
    ensures n.Function? && table(n.name) == Unavailable ==> r.Val? && r.v.Str?
    decreases n
  {
    match n
    case Literal(TextLit(t)) => Val(Str(t))
    case Literal(NumberLit(d)) => NumberOutcome(d)
    case Field(name) => Val(Str(FieldText(env, name)))
    case Concat(children) =>
      Joined(seq(|children|, k requires 0 <= k < |children| => Eval(children[k], env, table)))
    case Function(name, args) =>
      Apply(table(name), name, seq(|args|, k requires 0 <= k < |args| => Eval(args[k], env, table)))
  }

  /** CONCAT: the parts' texts joined, the first part without a value
      stopping the rest. */
  function Joined(outs: seq<Outcome>): (r: Outcome)
    ensures r.Val? ==> r.v.Str?
    ensures r.Val? <==> forall k | 0 <= k < |outs| :: outs[k].Val?
  {
    if outs == [] then Val(Str(""))
    else match outs[0]
      case Val(v) =>
        (match Joined(outs[1..])
         case Val(w) => Val(Str(Stringify(v) + Stringify(w)))
         case other => other)
      case other => other
  }

  /** `evaluateFunction`, given the kind of the name and the outcomes of
      the arguments; an unavailable function looks at none of them. */
  function Apply(kind: Kind, name: string, outs: seq<Outcome>): Outcome {
    match kind
    case Unavailable => Val(Str(NotAvailable(name)))
    case Strict(b) =>
      (match Collect(outs, 0, if Variadic(b) then |outs| else Arity(b))
       case Stops(o) => o
       case Vals(vs) => Compute(b, vs))
    case IfCall => IfOf(outs)
    case FirstValueCall => FirstValueOf(outs, 0)
    case NotModelled => Outside
    case Unknown => Val(Str(UnknownFunction(name)))
  }

  predicate Variadic(b: Builtin) {
    b in {Append, EqualsAll, NotEqualsAll, IsTrue, AnyTrue, ListCount}
  }

  /** How many leading arguments a built-in evaluates. */
  function Arity(b: Builtin): nat {
    match b
    case Replace | Parse | BeNum | Split => 3
    case Contains | NotContains | Left | Right | LeftOf | RightOf | LeftOfLast | RightOfLast
      | RemoveChars | Partition | GtNum | GteNum | LtNum | LteNum | ListIndex | ListJoin
      | ListMerge | ListDiff | ListIntersect | LineSplit | WordSplit | ItemAppend
      | ItemPrepend | ItemContains | ItemStartsWith | ItemEndsWith | ItemLeft
      | ItemRight | ItemLeftOf | ItemRightOf => 2
    case _ => 1
  }

  /** `evalArg(i)`: a missing argument evaluates to "". */
  function ArgOutcome(outs: seq<Outcome>, i: nat): Outcome {
    if i < |outs| then outs[i] else Val(Str(""))
  }

  datatype Outcomes = Vals(vs: seq<Value>) | Stops(o: Outcome)

  /** Arguments `i` to `count - 1` in order; the first that gives no value
      stops the rest. */
  function Collect(outs: seq<Outcome>, i: nat, count: nat): (r: Outcomes)
    ensures r.Vals? ==> |r.vs| == if i <= count then count - i else 0
    ensures r.Stops? ==> !r.o.Val?
    decreases count - i
  {
    if count <= i then Vals([])
    else match ArgOutcome(outs, i)
      case Val(v) =>
        (match Collect(outs, i + 1, count)
         case Vals(vs) => Vals([v] + vs)
         case Stops(o) => Stops(o))
      case other => Stops(other)
  }

  /** `IF`: conditions and results in pairs; the first condition that
      holds gives its result, a last unpaired argument is the else value,
      and otherwise "". */
  function IfOf(outs: seq<Outcome>): Outcome
  {
    if 1 < |outs| then
      match outs[0]
      case Val(c) => if ToBoolean(c) then outs[1] else IfOf(outs[2..])
      case other => other
    else if |outs| == 1 then outs[0]
    else Val(Str(""))
  }

  /** `FIRSTVALUE`: the first argument whose text is not blank, trimmed. */
  function FirstValueOf(outs: seq<Outcome>, i: nat): Outcome
    decreases |outs| - i
  {
    if |outs| <= i then Val(Str(""))
    else match outs[i]
      case Val(v) =>
        var t := JsString.Trim(Stringify(v));
        if t != [] then Val(Str(t)) else FirstValueOf(outs, i + 1)
      case other => other
  }

  // ---------------------------------------------------------------------
  // the strict built-ins on their argument values

  /** The `i`th argument value, "" when there is none. */
  function At(vs: seq<Value>, i: nat): Value {
    if i < |vs| then vs[i] else Str("")
  }

  function Text(vs: seq<Value>, i: nat): string {
    Stringify(At(vs, i))
  }

  function Flag(b: bool): Value {
    Num(if b then 1 else 0)
  }

  /** Text whose lower and upper case this model knows: ASCII only. */
  predicate IsAscii(s: string) {
    forall k | 0 <= k < |s| :: s[k] <= '\U{7F}'
  }

  function Texts(vs: seq<Value>): (r: seq<string>)
    ensures |r| == |vs| && forall k | 0 <= k < |vs| :: r[k] == Stringify(vs[k])
  {
    seq(|vs|, k requires 0 <= k < |vs| => Stringify(vs[k]))
  }

  function PieceTexts(num: Decimal, divisor: Decimal): Outcome {
    if num.mantissa <= 0 then Val(Str(""))
    else if divisor.mantissa <= 0 then Diverges
    else if IsInteger(num) && IsInteger(divisor) then
      IntegerSign(num);
      IntegerSign(divisor);
      Val(Str(Partition.PiecesText(Partition.Pieces(Numbers.Floor(num), Numbers.Floor(divisor)))))
    else Outside
  }

  lemma MulAtLeast(a: int, b: int)
    requires a >= 1 && b >= 1
    ensures a * b >= b
  {
  }

  lemma MulNotPositive(a: int, b: int)
    requires a <= 0 && b >= 0
    ensures a * b <= 0
  {
  }

  lemma IntegerSign(d: Decimal)
    requires IsInteger(d)
    ensures d.mantissa > 0 <==> Numbers.Floor(d) > 0
  {
    var p, r := Pow10(d.scale), Numbers.Floor(d);
    IntegerExact(d);
    if r > 0 { MulAtLeast(r, p); } else { MulNotPositive(r, p); }
  }

  /** The five kinds of strict built-in, by what they read. */
  datatype Group = TextGroup | NumberGroup | TruthGroup | CountGroup | ListGroup

  /** The kind each built-in belongs to. */
  function GroupOf(b: Builtin): Group {
    match b
    case Append | Contains | NotContains | EqualsAll | NotEqualsAll | LeftOf | RightOf
      | LeftOfLast | RightOfLast | Length | Lowercase | Uppercase | Trim | Replace
      | RemoveChars | RemoveSpaces | RemoveSymbols | NormalizeText | Parse | Enclose => TextGroup
    case Floor | Ceiling | Partition | GtNum | GteNum | LtNum | LteNum | BeNum => NumberGroup
    case HasValue | IsEmpty | IsTrue | AnyTrue | Not => TruthGroup
    case Left | Right | Split | ListIndex | LineSplit | WordSplit | ItemLeft | ItemRight => CountGroup
    case ListCount | ListJoin | ListMerge | ListDiff | ListIntersect | ListUnique | ListAsLines
      | ItemAppend | ItemPrepend | ItemContains | ItemStartsWith | ItemEndsWith | ItemLeftOf
      | ItemRightOf => ListGroup
  }

  /** The built-ins that compare, cut and clean texts. */
  predicate IsTextual(b: Builtin) { GroupOf(b) == TextGroup }

  /** The built-ins that read numbers. */
  predicate IsNumeric(b: Builtin) { GroupOf(b) == NumberGroup }

  /** The built-ins that test values. */
  predicate IsLogic(b: Builtin) { GroupOf(b) == TruthGroup }

  /** The built-ins that cut or pick by a count. */
  predicate IsCounted(b: Builtin) { GroupOf(b) == CountGroup }

  /** The built-ins that work on `;`-separated lists. */
  predicate IsListwise(b: Builtin) { GroupOf(b) == ListGroup }

  /** The built-ins that compare, cut and clean texts. */
  function Textual(b: Builtin, vs: seq<Value>): (r: Outcome)
    requires IsTextual(b)
    ensures r != Diverges
    ensures r == Outside <==>
      || (b in {Contains, NotContains} && !(IsAscii(Text(vs, 0)) && IsAscii(Text(vs, 1))))
      || (b in {Lowercase, Uppercase} && !IsAscii(Text(vs, 0)))
  {
    var s0, s1 := Text(vs, 0), Text(vs, 1);
    if b in {Contains, NotContains} && !(IsAscii(s0) && IsAscii(s1)) then Outside
    else if b in {Lowercase, Uppercase} && !IsAscii(s0) then Outside
    else Val(TextualValue(b, vs))
  }

  /** The value of a text built-in whose texts this model knows. */
  function TextualValue(b: Builtin, vs: seq<Value>): Value
    requires IsTextual(b)
  {
    var s0, s1, s2 := Text(vs, 0), Text(vs, 1), Text(vs, 2);
    match b
    case Append => Str(Join(ListFunctions.Present(Texts(if vs == [] then [] else vs[1..])), s0))
    case Contains => Flag(Includes(ToLower(s1), ToLower(s0)))
    case NotContains => Flag(!Includes(ToLower(s1), ToLower(s0)))
    case EqualsAll => Flag(forall k | 1 <= k < |vs| :: Stringify(vs[k]) == s0)
    case NotEqualsAll => Flag(forall k | 1 <= k < |vs| :: Stringify(vs[k]) != s0)
    case LeftOf => Str(TextFunctions.LeftOf(s0, s1))
    case RightOf => Str(TextFunctions.RightOf(s0, s1))
    case LeftOfLast => Str(TextFunctions.LeftOfLast(s0, s1))
    case RightOfLast => Str(TextFunctions.RightOfLast(s0, s1))
    case Length => Num(|s0|)
    case Lowercase => Str(ToLower(s0))
    case Uppercase => Str(ToUpper(s0))
    case Trim => Str(TextFunctions.TrimText(s0))
    case Replace => Str(ReplaceAll(s2, s0, s1))
    case RemoveChars => Str(TextFunctions.Without(s0, s1))
    case RemoveSpaces => Str(TextFunctions.RemoveSpaces(s0))
    case RemoveSymbols => Str(TextFunctions.RemoveSymbols(s0))
    case NormalizeText => Str(TextFunctions.NormalizeText(s0))
    case Parse => Str(TextFunctions.ParseBetween(s0, s1, s2))
    case Enclose => Str(s0)
  }

  /** The built-ins of numbers: rounding, PARTITION and comparisons, on
      what `toNumber` reads from the first three arguments. */
  function Numeric(b: Builtin, vs: seq<Value>): Outcome
    requires IsNumeric(b)
  {
    NumericOf(b, ToNumber(At(vs, 0)), ToNumber(At(vs, 1)), ToNumber(At(vs, 2)))
  }

  function NumericOf(b: Builtin, x: Option<Decimal>, y: Option<Decimal>, z: Option<Decimal>): (r: Outcome)
    requires IsNumeric(b)
    ensures r == Diverges ==> b == Partition
    ensures x.None? ==> r == Outside
    ensures r.Val? && b != Partition ==> r.v.Num?
    ensures r.Val? && b in {GtNum, GteNum, LtNum, LteNum, BeNum} ==> r.v.n == 0 || r.v.n == 1
  {
    match (x, y, z)
    case (Some(x), Some(y), z) =>
      (match b
       case Floor => Val(Num(Numbers.Floor(x)))
       case Ceiling => Val(Num(Ceil(x)))
       case Partition => PieceTexts(x, y)
       case GtNum => Val(Flag(Less(y, x)))
       case GteNum => Val(Flag(!Less(x, y)))
       case LtNum => Val(Flag(Less(x, y)))
       case LteNum => Val(Flag(!Less(y, x)))
       case BeNum => if z.Some? then Val(Flag(!Less(x, y) && !Less(z.value, x))) else Outside)
    case (Some(x), None, _) =>
      if b == Floor then Val(Num(Numbers.Floor(x)))
      else if b == Ceiling then Val(Num(Ceil(x)))
      else Outside
    case _ => Outside
  }

  predicate AllTrue(vs: seq<Value>) {
    forall k | 0 <= k < |vs| :: ToBoolean(vs[k])
  }

  predicate SomeTrue(vs: seq<Value>) {
    exists k | 0 <= k < |vs| :: ToBoolean(vs[k])
  }

  /** The built-ins of truth. */
  function Logic(b: Builtin, vs: seq<Value>): (r: Outcome)
    requires IsLogic(b)
    ensures r.Val? && r.v.Num? && (r.v.n == 0 || r.v.n == 1)
    ensures vs == [] && b == IsTrue ==> r.v.n == 1
    ensures vs == [] && b in {AnyTrue, HasValue} ==> r.v.n == 0
  {
    match b
    case HasValue => Val(Flag(JsString.Trim(Text(vs, 0)) != []))
    case IsEmpty => Val(Flag(JsString.Trim(Text(vs, 0)) == []))
    case IsTrue => Val(Flag(AllTrue(vs)))
    case AnyTrue => Val(Flag(SomeTrue(vs)))
    case Not => Val(Flag(!ToBoolean(At(vs, 0))))
  }

  /** `item.substring(...)` and picking an item by a number. */
  function Counted(b: Builtin, vs: seq<Value>): Outcome
    requires IsCounted(b)
  {
    var i := if b == Split then 1 else 0;
    match ToNumber(At(vs, i))
    case None => Outside
    case Some(c) => CountedBy(b, c, Text(vs, 1 - i), vs)
  }

  /** The same, once the count `c` is read and `s` is the text it cuts. */
  function CountedBy(b: Builtin, c: Decimal, s: string, vs: seq<Value>): (r: Outcome)
    requires IsCounted(b)
    ensures r != Diverges
    ensures r == Outside ==> b in {Right, ItemRight} && !IsInteger(c)
    ensures r.Val? ==> r.v.Str?
    ensures b == Left ==> StartsWith(s, r.v.s)
    ensures b == Right && r.Val? ==> EndsWith(s, r.v.s)
  {
    match b
    case Left => Val(Str(Substring(s, 0, Trunc(c))))
    case Right => if IsInteger(c) then Val(Str(SubstringFrom(s, |s| - Numbers.Floor(c)))) else Outside
    case Split => Val(Str(ListFunctions.Pick(JsString.Split(Text(vs, 2), s), c)))
    case ListIndex => Val(Str(ListFunctions.Pick(ListFunctions.Items(s), c)))
    case LineSplit => Val(Str(ListFunctions.Pick(ListFunctions.Lines(s), c)))
    case WordSplit => Val(Str(ListFunctions.Pick(ListFunctions.Words(s), c)))
    case ItemLeft => Val(Str(Join(ListFunctions.ItemsLeft(ListFunctions.Items(s), Trunc(c)), ";")))
    case ItemRight =>
      if IsInteger(c) then Val(Str(Join(ListFunctions.ItemsRight(ListFunctions.Items(s), Numbers.Floor(c)), ";")))
      else Outside
  }

  /** The built-ins over `;`-separated lists. */
  function Listwise(b: Builtin, vs: seq<Value>): (r: Outcome)
    requires IsListwise(b)
    ensures r != Diverges
    ensures r == Outside ==>
      b in {ItemContains, ItemStartsWith, ItemEndsWith} && !(IsAscii(Text(vs, 0)) && IsAscii(Text(vs, 1)))
    ensures r.Val? ==> (r.v.Num? <==> b == ListCount)
  {
    var s0, s1 := Text(vs, 0), Text(vs, 1);
    match b
    case ListCount =>
      if |vs| == 1 then Val(Num(ListFunctions.CountItems(s0)))
      else Val(Num(|Filter(Texts(vs), ListFunctions.NotBlank)|))
    case ListJoin => Val(Str(ListFunctions.ListJoin(s0, s1)))
    case ListMerge => Val(Str(ListFunctions.ListMerge(s0, s1)))
    case ListDiff => Val(Str(ListFunctions.ListDiff(s0, s1)))
    case ListIntersect => Val(Str(ListFunctions.ListIntersect(s0, s1)))
    case ListUnique => Val(Str(ListFunctions.ListUnique(s0)))
    case ListAsLines => Val(Str(ListFunctions.ListAsLines(s0)))
    case ItemAppend => Val(Str(Join(ListFunctions.Affix(ListFunctions.Items(s1), "", s0), ";")))
    case ItemPrepend => Val(Str(Join(ListFunctions.Affix(ListFunctions.Items(s1), s0, ""), ";")))
    case ItemContains | ItemStartsWith | ItemEndsWith =>
      if IsAscii(s0) && IsAscii(s1) then
        var test := if b == ItemContains then ListFunctions.ContainsTest
          else if b == ItemStartsWith then ListFunctions.StartsTest else ListFunctions.EndsTest;
        Val(Str(Join(ListFunctions.SelectItems(ListFunctions.Items(s1), test, s0), ";")))
      else Outside
    case ItemLeftOf => Val(Str(Join(ListFunctions.ItemsLeftOf(s0, ListFunctions.Items(s1)), ";")))
    case ItemRightOf => Val(Str(Join(ListFunctions.ItemsRightOf(s0, ListFunctions.Items(s1)), ";")))
  }

  /** A strict built-in applied to the values of the arguments it reads:
      the function of its kind. */
  function Compute(b: Builtin, vs: seq<Value>): (r: Outcome)
    ensures r == Diverges ==> b == Partition
    ensures r == Outside ==>
      b in {Contains, NotContains, Lowercase, Uppercase, ItemContains, ItemStartsWith, ItemEndsWith}
      || IsNumeric(b) || IsCounted(b)
  {
    match GroupOf(b)
    case TextGroup => Textual(b, vs)
    case NumberGroup => Numeric(b, vs)
    case TruthGroup => Logic(b, vs)
    case CountGroup => Counted(b, vs)
    case ListGroup => Listwise(b, vs)
  }

  // Each built-in reaches the function of its kind.

  lemma TextualCall(b: Builtin, vs: seq<Value>)
    requires IsTextual(b)
    ensures Compute(b, vs) == Textual(b, vs)
  {
  }

  lemma NumericCall(b: Builtin, vs: seq<Value>)
    requires IsNumeric(b)
    ensures Compute(b, vs) == Numeric(b, vs)
  {
  }

  lemma LogicCall(b: Builtin, vs: seq<Value>)
    requires IsLogic(b)
    ensures Compute(b, vs) == Logic(b, vs)
  {
  }

  lemma CountedCall(b: Builtin, vs: seq<Value>)
    requires IsCounted(b)
    ensures Compute(b, vs) == Counted(b, vs)
  {
  }

  lemma ListwiseCall(b: Builtin, vs: seq<Value>)
    requires IsListwise(b)
    ensures Compute(b, vs) == Listwise(b, vs)
  {
  }

  // ---------------------------------------------------------------------
  // laws of evaluation

  /** `evaluate` with the source's table. */
  function Evaluate(n: Node, env: Env): Outcome {
    Eval(n, env, Dispatch)
  }

  /** A field reference evaluates to the value typed for it, or to its
      own `[[name]]` when there is none. */
  lemma EvalField(name: string, env: Env)
    ensures Evaluate(Field(name), env) == Val(Str(FieldText(env, name)))
  {
  }

  /** A name the registry does not know, or marks not implemented,
      evaluates to its notice whatever its arguments would give. */
  lemma UnavailableIgnoresArguments(name: string, args: seq<Node>, env: Env)
    requires name !in Registry.FunctionData || Registry.FunctionData[name].status == Registry.NotImplemented
    ensures Evaluate(Function(name, args), env) == Val(Str(NotAvailable(name)))
  {
    assert Dispatch(name) == Unavailable;
  }

  /** Outcomes that are all values. */
  function AllVal(vals: seq<Value>): (r: seq<Outcome>)
    ensures |r| == |vals| && forall k | 0 <= k < |vals| :: r[k] == Val(vals[k])
  {
    seq(|vals|, k requires 0 <= k < |vals| => Val(vals[k]))
  }

  /** A CONCAT of parts that all have values is their texts joined. */
  lemma {:induction false} JoinedTexts(vals: seq<Value>)
    ensures Joined(AllVal(vals)) == Val(Str(Join(Texts(vals), "")))
  {
    if vals != [] {
      var rest := vals[1..];
      JoinedTexts(rest);
      assert AllVal(vals)[1..] == AllVal(rest);
      JoinedHead(AllVal(vals), vals[0], Str(Join(Texts(rest), "")));
      JoinedTextsHead(vals);
    }
  }

  /** A CONCAT whose first part has a value, and whose rest has one. */
  lemma JoinedHead(outs: seq<Outcome>, v: Value, w: Value)
    requires outs != [] && outs[0] == Val(v) && Joined(outs[1..]) == Val(w)
    ensures Joined(outs) == Val(Str(Stringify(v) + Stringify(w)))
  {
  }

  lemma JoinedTextsHead(vals: seq<Value>)
    requires vals != []
    ensures Join(Texts(vals), "") == Stringify(vals[0]) + Join(Texts(vals[1..]), "")
  {
    var a, rest := Stringify(vals[0]), Texts(vals[1..]);
    assert Texts(vals) == [a] + rest;
    if rest == [] {
      assert a + [] == a;
    } else {
      JoinCons(a, rest, "");
      NothingBetween(a, Join(rest, ""));
    }
  }

  lemma NothingBetween(a: string, b: string)
    ensures a + "" + b == a + b
  {
    assert a + "" == a;
  }

  /** The first part without a value is the outcome of a CONCAT. */
  lemma {:induction false} JoinedStops(outs: seq<Outcome>, k: nat)
    requires k < |outs| && !outs[k].Val? && forall j | 0 <= j < k :: outs[j].Val?
    ensures Joined(outs) == outs[k]
  {
    if k > 0 {
      JoinedStops(outs[1..], k - 1);
    }
  }

  /** The evaluated arguments `i` to `count - 1`, "" past the last. */
  function Padded(vals: seq<Value>, i: nat, count: nat): (r: seq<Value>)
    ensures |r| == if i <= count then count - i else 0
  {
    if count <= i then [] else seq(count - i, k requires 0 <= k < count - i => At(vals, i + k))
  }

  /** Arguments that all have values give those values, and "" for every
      argument asked for beyond the last. */
  lemma {:induction false} CollectValues(vals: seq<Value>, i: nat, count: nat)
    ensures Collect(AllVal(vals), i, count) == Vals(Padded(vals, i, count))
    decreases count - i
  {
    if i < count {
      CollectValues(vals, i + 1, count);
      assert Padded(vals, i, count) == [At(vals, i)] + Padded(vals, i + 1, count);
    }
  }

  /** A strict built-in whose arguments all have values is applied to
      them: all of them for the variadic ones, and otherwise exactly as
      many as it reads, "" standing in for missing ones. */
  lemma StrictCall(name: string, b: Builtin, vals: seq<Value>)
    ensures Variadic(b) ==> Apply(Strict(b), name, AllVal(vals)) == Compute(b, vals)
    ensures !Variadic(b) ==> Apply(Strict(b), name, AllVal(vals)) == Compute(b, Padded(vals, 0, Arity(b)))
  {
    var count := if Variadic(b) then |vals| else Arity(b);
    CollectValues(vals, 0, count);
    if Variadic(b) {
      assert Padded(vals, 0, |vals|) == vals;
    }
  }

  /** The first argument a strict built-in reads that has no value is the
      outcome: nothing after it matters. */
  lemma {:induction false} CollectStops(outs: seq<Outcome>, i: nat, count: nat, k: nat)
    requires i <= k < count && k < |outs| && !outs[k].Val?
    requires forall j | i <= j < k :: outs[j].Val?
    ensures Collect(outs, i, count) == Stops(outs[k])
    decreases k - i
  {
    if i < k {
      CollectStops(outs, i + 1, count, k);
    }
  }

  // IF

  /** The first condition holds: the result is its partner, whatever the
      rest would give. */
  lemma IfTakesFirst(outs: seq<Outcome>, v: Value)
    requires |outs| >= 2 && outs[0] == Val(v) && ToBoolean(v)
    ensures IfOf(outs) == outs[1]
  {
  }

  /** The first condition fails: the first pair is dropped. */
  lemma IfSkipsFirst(outs: seq<Outcome>, v: Value)
    requires |outs| >= 2 && outs[0] == Val(v) && !ToBoolean(v)
    ensures IfOf(outs) == IfOf(outs[2..])
  {
  }

  /** A condition without a value is the outcome: its partner and the
      rest are never reached. */
  lemma IfConditionStops(outs: seq<Outcome>)
    requires |outs| >= 2 && !outs[0].Val?
    ensures IfOf(outs) == outs[0]
  {
  }

  /** Every condition gives a value `toBoolean` rejects. */
  predicate NoneHolds(outs: seq<Outcome>) {
    1 < |outs| ==> outs[0].Val? && !ToBoolean(outs[0].v) && NoneHolds(outs[2..])
  }

  /** No condition holds: the last argument, when it is unpaired, is the
      value without being tested, and otherwise the result is "". */
  lemma {:induction false} IfNoneHolds(outs: seq<Outcome>)
    requires NoneHolds(outs)
    ensures IfOf(outs) == if |outs| % 2 == 1 then outs[|outs| - 1] else Val(Str(""))
  {
    if 1 < |outs| {
      var rest := outs[2..];
      IfNoneHolds(rest);
      IfSkipsFirst(outs, outs[0].v);
      ParityDropsTwo(|outs|);
      assert |rest| % 2 == 1 ==> rest[|rest| - 1] == outs[|outs| - 1];
    }
  }

  lemma ParityDropsTwo(n: int)
    requires n >= 2
    ensures (n - 2) % 2 == n % 2
  {
  }

  lemma ParityAfterPairs(n: int, pairs: int)
    requires 0 <= n - 2 * pairs <= 1
    ensures n % 2 == n - 2 * pairs
  {
  }

  /** Fewer than two arguments left: the one left, or "". */
  lemma IfLast(outs: seq<Outcome>)
    requires |outs| <= 1
    ensures IfOf(outs) == if |outs| == 1 then outs[0] else Val(Str(""))
  {
  }

  /** The `IF` loop over condition-result pairs. */
  method EvaluateIf(outs: seq<Outcome>) returns (r: Outcome)
    ensures r == IfOf(outs)
  {
    var i := 0;
    ghost var pairs := 0;
    while i + 1 < |outs|
      invariant i <= |outs| && i == 2 * pairs && IfOf(outs[i..]) == IfOf(outs)
      decreases |outs| - i
    {
      var rest := outs[i..];
      if !outs[i].Val? {
        IfConditionStops(rest);
        return outs[i];
      }
      if ToBoolean(outs[i].v) {
        IfTakesFirst(rest, outs[i].v);
        return outs[i + 1];
      }
      IfSkipsFirst(rest, outs[i].v);
      assert rest[2..] == outs[i + 2..];
      i, pairs := i + 2, pairs + 1;
    }
    IfLast(outs[i..]);
    ParityAfterPairs(|outs|, pairs);
    if |outs| % 2 == 1 {
      r := outs[|outs| - 1];
    } else {
      r := Val(Str(""));
    }
  }

  // FIRSTVALUE

  /** `FIRSTVALUE` gives the first argument's trimmed text when that is
      not blank, and otherwise looks at the rest. */
  lemma {:induction false} FirstValueShift(outs: seq<Outcome>, i: nat)
    requires |outs| >= 1
    ensures FirstValueOf(outs, i + 1) == FirstValueOf(outs[1..], i)
    decreases |outs| - i
  {
    if i + 1 < |outs| {
      var o := outs[i + 1];
      assert o == outs[1..][i];
      if o.Val? && JsString.Trim(Stringify(o.v)) == [] {
        FirstValueShift(outs, i + 1);
      }
    }
  }

  lemma FirstValueStep(outs: seq<Outcome>, v: Value)
    requires |outs| >= 1 && outs[0] == Val(v)
    ensures JsString.Trim(Stringify(v)) != [] ==> FirstValueOf(outs, 0) == Val(Str(JsString.Trim(Stringify(v))))
    ensures JsString.Trim(Stringify(v)) == [] ==> FirstValueOf(outs, 0) == FirstValueOf(outs[1..], 0)
  {
    FirstValueShift(outs, 0);
  }

  /** Whatever `FIRSTVALUE` gives is trimmed text. */
  lemma {:induction false} FirstValueTrimmed(outs: seq<Outcome>, i: nat)
    requires forall k | 0 <= k < |outs| :: outs[k].Val?
    ensures FirstValueOf(outs, i).Val? && FirstValueOf(outs, i).v.Str?
    ensures JsString.Trim(FirstValueOf(outs, i).v.s) == FirstValueOf(outs, i).v.s
    decreases |outs| - i
  {
    if i < |outs| {
      var t := JsString.Trim(Stringify(outs[i].v));
      if t != [] {
        TrimIdempotent(Stringify(outs[i].v));
      } else {
        FirstValueTrimmed(outs, i + 1);
      }
    }
  }

  /** The `FIRSTVALUE` loop over the argument trees. */
  method EvaluateFirstValue(outs: seq<Outcome>) returns (r: Outcome)
    ensures r == FirstValueOf(outs, 0)
  {
    var i := 0;
    while i < |outs|
      invariant i <= |outs| && FirstValueOf(outs, i) == FirstValueOf(outs, 0)
      decreases |outs| - i
    {
      if !outs[i].Val? {
        return outs[i];
      }
      var t := JsString.Trim(Stringify(outs[i].v));
      if t != [] {
        return Val(Str(t));
      }
      i := i + 1;
    }
    r := Val(Str(""));
  }

  // ---------------------------------------------------------------------
  // the same laws on trees

  /** The outcomes of a list of trees. */
  function Outs(ns: seq<Node>, env: Env, table: Table): (r: seq<Outcome>)
    ensures |r| == |ns| && forall k | 0 <= k < |ns| :: r[k] == Eval(ns[k], env, table)
  {
    seq(|ns|, k requires 0 <= k < |ns| => Eval(ns[k], env, table))
  }

  /** A CONCAT whose parts all have values is their texts joined. */
  lemma EvalConcat(children: seq<Node>, env: Env, table: Table, vals: seq<Value>)
    requires |vals| == |children|
    requires forall k | 0 <= k < |children| :: Eval(children[k], env, table) == Val(vals[k])
    ensures Eval(Concat(children), env, table) == Val(Str(Join(Texts(vals), "")))
  {
    assert Outs(children, env, table) == AllVal(vals);
    JoinedTexts(vals);
  }

  /** A call of a strict built-in whose arguments all have values
      computes the built-in on them. */
  lemma EvalStrictCall(name: string, args: seq<Node>, env: Env, table: Table, b: Builtin, vals: seq<Value>)
    requires table(name) == Strict(b) && |vals| == |args|
    requires forall k | 0 <= k < |args| :: Eval(args[k], env, table) == Val(vals[k])
    ensures Variadic(b) ==> Eval(Function(name, args), env, table) == Compute(b, vals)
    ensures !Variadic(b) ==> Eval(Function(name, args), env, table) == Compute(b, Padded(vals, 0, Arity(b)))
  {
    assert Outs(args, env, table) == AllVal(vals);
    StrictCall(name, b, vals);
  }

  /** An `IF` whose first condition holds is its first result, whatever
      the other arguments would give, even when they give nothing. */
  lemma EvalIfTaken(name: string, args: seq<Node>, env: Env, table: Table, v: Value)
    requires table(name) == IfCall && |args| >= 2
    requires Eval(args[0], env, table) == Val(v) && ToBoolean(v)
    ensures Eval(Function(name, args), env, table) == Eval(args[1], env, table)
  {
    IfTakesFirst(Outs(args, env, table), v);
  }

  /** An `IF` whose first condition fails is the `IF` of the remaining
      arguments. */
  lemma EvalIfSkipped(name: string, args: seq<Node>, env: Env, table: Table, v: Value)
    requires table(name) == IfCall && |args| >= 2
    requires Eval(args[0], env, table) == Val(v) && !ToBoolean(v)
    ensures Eval(Function(name, args), env, table) == Eval(Function(name, args[2..]), env, table)
  {
    var outs := Outs(args, env, table);
    EvalIf(name, args, env, table);
    EvalIf(name, args[2..], env, table);
    IfSkipsFirst(outs, v);
    assert outs[2..] == Outs(args[2..], env, table);
  }

  /** A call of `IF` is the `IF` of its arguments' outcomes. */
  lemma EvalIf(name: string, args: seq<Node>, env: Env, table: Table)
    requires table(name) == IfCall
    ensures Eval(Function(name, args), env, table) == IfOf(Outs(args, env, table))
  {
  }
}
