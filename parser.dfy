/** The tree the parser builds (`ASTNode`): literals, field references,
    function calls with their argument trees, and CONCAT nodes that join
    adjacent parts. */
module Ast {
  import opened Numbers

  /** A literal's value: text, or the number a NUMBER token carries. */
  datatype Lit = TextLit(text: string) | NumberLit(value: Decimal)

  datatype Node =
    | Literal(lit: Lit)
    | Field(name: string)
    | Function(name: string, args: seq<Node>)
    | Concat(children: seq<Node>)
}

/** The recursive-descent parser (`FormulaParser`): a specification by
    functions over the token list and a cursor, and the parser itself as a
    class whose methods move the cursor. A parse either gives a node and
    the position after it, or fails with "Expected X but got Y". */
module Parser {
  import opened Wrappers
  import opened Lexer
  import opened Ast

  /** The error `consume(expected)` throws; `got` is a token type or "EOF". */
  datatype ParseError = Expected(want: string, got: string)

  function Message(e: ParseError): string {
    "Expected " + e.want + " but got " + e.got
  }

  datatype Parsed<T> = Ok(value: T, next: nat) | Err(error: ParseError)

  /** A token's `type` field. */
  function KindName(t: Token): string {
    match t
    case FieldTok(_) => "FIELD"
    case StringTok(_) => "STRING"
    case NumberTok(_) => "NUMBER"
    case DateTok(_) => "DATE"
    case FunctionTok(_) => "FUNCTION"
    case LParen => "LPAREN"
    case RParen => "RPAREN"
    case Semicolon => "SEMICOLON"
    case Comma => "COMMA"
    case OperatorTok(_) => "OPERATOR"
    case TextTok(_) => "TEXT"
  }

  /** What `parseExpression` makes of a token that does not start a
      function call: a literal holding the token's value, a field node, or
      an empty literal for a parenthesis or separator it skips. */
  function LeafNode(t: Token): Node {
    match t
    case FieldTok(n) => Field(n)
    case StringTok(x) => Literal(TextLit(x))
    case NumberTok(d) => Literal(NumberLit(d))
    case DateTok(x) => Literal(TextLit(x))
    case TextTok(x) => Literal(TextLit(x))
    case OperatorTok(c) => Literal(TextLit([c]))
    case _ => Literal(TextLit(""))
  }

  predicate IsSeparator(t: Token) { t == Semicolon || t == Comma }

  // ---------------------------------------------------------------------
  // the grammar as functions

  /** `parseExpression` at position `p`. */
  function ParseExpr(ts: seq<Token>, p: nat): (r: Parsed<Node>)
    requires p <= |ts|
    ensures r.Ok? ==> p <= r.next <= |ts| && (p < |ts| ==> p < r.next)
    decreases |ts| - p, 1
  {
    if p == |ts| then Ok(Literal(TextLit("")), p)
    else if ts[p].FunctionTok? then ParseCall(ts, p)
    else Ok(LeafNode(ts[p]), p + 1)
  }

  /** `parseFunctionCall` at a FUNCTION token: `(`, the arguments, `)`. */
  function ParseCall(ts: seq<Token>, p: nat): (r: Parsed<Node>)
    requires p < |ts| && ts[p].FunctionTok?
    ensures r.Ok? ==> p + 3 <= r.next <= |ts| && ts[p + 1] == LParen && ts[r.next - 1] == RParen
    ensures r.Ok? ==> r.value.Function? && r.value.name == ts[p].name
    decreases |ts| - p, 0
  {
    if p + 1 == |ts| then Err(Expected("LPAREN", "EOF"))
    else if ts[p + 1] != LParen then Err(Expected("LPAREN", KindName(ts[p + 1])))
    else match ParseArgs(ts, p + 2, [])
      case Err(e) => Err(e)
      // the argument loop stops only at `)` or at the end
      case Ok(args, q) =>
        if q == |ts| then Err(Expected("RPAREN", "EOF"))
        else Ok(Function(ts[p].name, args), q + 1)
  }

  /** The argument loop from `p`, with `args` collected so far: it runs
      until `)` or the end of the tokens. */
  function ParseArgs(ts: seq<Token>, p: nat, args: seq<Node>): (r: Parsed<seq<Node>>)
    requires p <= |ts|
    ensures r.Ok? ==> p <= r.next <= |ts| && (r.next == |ts| || ts[r.next] == RParen)
    decreases |ts| - p, 3
  {
    if p == |ts| || ts[p] == RParen then Ok(args, p)
    else match ParsePart(ts, p, 0, [])
      case Err(e) => Err(e)
      case Ok(parts, q) =>
        ParseArgs(ts, SkipSeparator(ts, q), args + Argument(parts))
  }

  /** The position after an argument: past the `;` or `,` that ends it. */
  function SkipSeparator(ts: seq<Token>, q: nat): (r: nat)
    requires q <= |ts|
    ensures q <= r <= |ts|
  {
    if q < |ts| && IsSeparator(ts[q]) then q + 1 else q
  }

  /** The argument one slot's parts make: none for an empty slot, the part
      itself when there is one, a CONCAT of them otherwise. */
  function Argument(parts: seq<Node>): (r: seq<Node>)
    ensures |r| <= 1
    ensures r == [] <==> parts == []
  {
    if |parts| == 1 then [parts[0]]
    else if |parts| > 1 then [Concat(parts)]
    else []
  }

  /** The loop over one argument's parts from `p`, at parenthesis depth
      `depth`: it stops at the end, or at a `)`, `;` or `,` at depth 0. */
  function ParsePart(ts: seq<Token>, p: nat, depth: nat, parts: seq<Node>): (r: Parsed<seq<Node>>)
    requires p <= |ts|
    ensures r.Ok? ==> p <= r.next <= |ts|
    ensures r.Ok? && r.next < |ts| ==> ts[r.next] == RParen || IsSeparator(ts[r.next])
    ensures r.Ok? && r.next == p && p < |ts| ==> depth == 0
    decreases |ts| - p, 2
  {
    if p == |ts| then Ok(parts, p)
    else
      var cur := ts[p];
      var depth1 := if cur == LParen then depth + 1 else depth;
      if cur == RParen && depth1 == 0 then Ok(parts, p)
      else
        var depth2 := if cur == RParen then depth1 - 1 else depth1;
        if IsSeparator(cur) && depth2 == 0 then Ok(parts, p)
        else
          // a FUNCTION token goes to `parseFunctionCall`, as `parseExpression`
          // itself would send it
          match ParseExpr(ts, p)
          case Err(e) => Err(e)
          case Ok(node, q) => ParsePart(ts, q, depth2, parts + [node])
  }

  /** The top-level loop of `parse` from `p`. */
  function ParseTop(ts: seq<Token>, p: nat, nodes: seq<Node>): (r: Parsed<seq<Node>>)
    requires p <= |ts|
    ensures r.Ok? ==> r.next == |ts| && |nodes| <= |r.value| <= |nodes| + |ts| - p
    decreases |ts| - p
  {
    if p == |ts| then Ok(nodes, p)
    else match ParseExpr(ts, p)
      case Err(e) => Err(e)
      case Ok(n, q) => ParseTop(ts, q, nodes + [n])
  }

  /** `parse` from position `p`: one top-level node as it is, none or
      several wrapped in one CONCAT. */
  function ParseFrom(ts: seq<Token>, p: nat): (r: Parsed<Node>)
    requires p <= |ts|
    ensures r.Ok? ==> r.next == |ts|
  {
    match ParseTop(ts, p, [])
    case Err(e) => Err(e)
    case Ok(nodes, q) => Ok(if |nodes| == 1 then nodes[0] else Concat(nodes), q)
  }

  function Parse(ts: seq<Token>): Parsed<Node> {
    ParseFrom(ts, 0)
  }

  // ---------------------------------------------------------------------
  // the parser as a class with a cursor

  class FormulaParser {
    const tokens: seq<Token>
    var pos: nat

    constructor (tokens: seq<Token>)
      ensures this.tokens == tokens && pos == 0
    {
      this.tokens := tokens;
      pos := 0;
    }

    function Current(): (r: Option<Token>)
      reads this
      ensures r.Some? <==> pos < |tokens|
      ensures r.Some? ==> r.value == tokens[pos]
    {
      if pos < |tokens| then Some(tokens[pos]) else None
    }

    /** `consume(expected)`: fails, leaving the cursor, when a token type
        is expected and the current token is missing or of another type;
        otherwise returns the current token and moves past it. */
    method Consume(expected: Option<string>) returns (r: Parsed<Option<Token>>)
      modifies this
      ensures var cur := old(Current());
        if expected.Some? && (cur.None? || KindName(cur.value) != expected.value) then
          && r == Err(Expected(expected.value, if cur.None? then "EOF" else KindName(cur.value)))
          && pos == old(pos)
        else
          && r == Ok(cur, old(pos) + 1)
          && pos == old(pos) + 1
    {
      var token := Current();
      if expected.Some? && (token.None? || KindName(token.value) != expected.value) {
        return Err(Expected(expected.value, if token.None? then "EOF" else KindName(token.value)));
      }
      pos := pos + 1;
      return Ok(token, pos);
    }

    method ParseExpression() returns (r: Parsed<Node>)
      requires pos <= |tokens|
      modifies this
      ensures r == ParseExpr(tokens, old(pos))
      ensures r.Ok? ==> pos == r.next
      decreases |tokens| - pos, 1
    {
      var token := Current();
      if token.None? {
        return Ok(Literal(TextLit("")), pos);
      }
      if token.value.FunctionTok? {
        r := ParseFunctionCall();
        return;
      }
      var _ := Consume(None);
      return Ok(LeafNode(token.value), pos);
    }

    method ParseFunctionCall() returns (r: Parsed<Node>)
      requires pos < |tokens| && tokens[pos].FunctionTok?
      modifies this
      ensures r == ParseCall(tokens, old(pos))
      ensures r.Ok? ==> pos == r.next
      decreases |tokens| - pos, 0
    {
      var start := pos;
      var name := tokens[pos].name;
      var _ := Consume(Some("FUNCTION"));
      assert pos == start + 1;
      var lparen := Consume(Some("LPAREN"));
      if lparen.Err? {
        CallWithoutParen(tokens, start);
        return Err(lparen.error);
      }
      assert pos == start + 2 && tokens[start + 1] == LParen;
      var args: seq<Node> := [];
      while Current().Some? && Current().value != RParen
        invariant start + 2 <= pos <= |tokens|
        invariant ParseArgs(tokens, pos, args) == ParseArgs(tokens, start + 2, [])
        decreases |tokens| - pos
      {
        var argStart := pos;
        var parts := ParseArgument();
        if parts.Err? {
          ArgsFail(tokens, argStart, args, parts.error);
          return Err(parts.error);
        }
        ArgsStep(tokens, argStart, args, parts.value, pos);
        args := args + Argument(parts.value);
        ghost var q := pos;
        if Current().Some? && IsSeparator(Current().value) {
          var _ := Consume(None);
        }
        assert pos == SkipSeparator(tokens, q);
      }
      ArgsEnd(tokens, start + 2, pos, args);
      CallOfArgs(tokens, start, args, pos);
      var rparen := Consume(Some("RPAREN"));
      if rparen.Err? {
        return Err(rparen.error);
      }
      return Ok(Function(name, args), pos);
    }

    /** The inner loop of `parseFunctionCall`: the parts of one argument,
        up to a `)`, `;` or `,` outside parentheses. */
    method ParseArgument() returns (r: Parsed<seq<Node>>)
      requires pos <= |tokens|
      modifies this
      ensures r == ParsePart(tokens, old(pos), 0, [])
      ensures r.Ok? ==> pos == r.next
      decreases |tokens| - pos, 2
    {
      var start := pos;
      var parts := [];
      var depth: nat := 0;
      while Current().Some?
        invariant start <= pos <= |tokens|
        invariant ParsePart(tokens, pos, depth, parts) == ParsePart(tokens, start, 0, [])
        decreases |tokens| - pos
      {
        var cur := Current().value;
        if cur == LParen {
          depth := depth + 1;
        }
        if cur == RParen {
          if depth == 0 {
            break;
          }
          depth := depth - 1;
        }
        if IsSeparator(cur) && depth == 0 {
          break;
        }
        var part;
        if cur.FunctionTok? {
          part := ParseFunctionCall();
        } else {
          part := ParseExpression();
        }
        if part.Err? {
          return Err(part.error);
        }
        parts := parts + [part.value];
      }
      return Ok(parts, pos);
    }

    /** `parse`: expressions until the tokens run out. */
    method Parse() returns (r: Parsed<Node>)
      requires pos <= |tokens|
      modifies this
      ensures r == ParseFrom(tokens, old(pos))
    {
      var start := pos;
      var nodes := [];
      while pos < |tokens|
        invariant start <= pos <= |tokens|
        invariant ParseTop(tokens, pos, nodes) == ParseTop(tokens, start, [])
        decreases |tokens| - pos
      {
        var node := ParseExpression();
        if node.Err? {
          return Err(node.error);
        }
        nodes := nodes + [node.value];
      }
      if |nodes| == 1 {
        return Ok(nodes[0], pos);
      }
      return Ok(Concat(nodes), pos);
    }
  }

  /** A failing part fails its whole argument list. */
  lemma ArgsFail(ts: seq<Token>, p: nat, args: seq<Node>, e: ParseError)
    requires p < |ts| && ts[p] != RParen
    requires ParsePart(ts, p, 0, []) == Err(e)
    ensures ParseArgs(ts, p, args) == Err(e)
  {
  }

  // ---------------------------------------------------------------------
  // calls whose arguments hold no call and no parenthesis

  /** A token that `parseExpression` turns into a single leaf. */
  predicate Flat(t: Token) { !t.FunctionTok? && t != LParen && t != RParen }

  function Leaves(ts: seq<Token>): (r: seq<Node>)
    ensures |r| == |ts|
    ensures forall i | 0 <= i < |ts| :: r[i] == LeafNode(ts[i])
  {
    if ts == [] then [] else [LeafNode(ts[0])] + Leaves(ts[1..])
  }

  /** Where the first `;` or `,` of `body` is, or its length. */
  function FirstSeparator(body: seq<Token>): (k: nat)
    ensures k <= |body|
    ensures forall i | 0 <= i < k :: !IsSeparator(body[i])
    ensures k < |body| ==> IsSeparator(body[k])
  {
    if body == [] || IsSeparator(body[0]) then 0 else 1 + FirstSeparator(body[1..])
  }

  /** The slots of an argument list: the runs between separators. */
  function Slots(body: seq<Token>): (r: seq<seq<Token>>)
    ensures |r| >= 1
    decreases |body|
  {
    var k := FirstSeparator(body);
    if k == |body| then [body] else [body[..k]] + Slots(body[k + 1..])
  }

  /** Each slot's argument: its leaves, as `Argument` groups them. */
  function ArgsOf(slots: seq<seq<Token>>): seq<Node> {
    if slots == [] then [] else Argument(Leaves(slots[0])) + ArgsOf(slots[1..])
  }

  lemma {:induction false} PartFlat(ts: seq<Token>, p: nat, k: nat, parts: seq<Node>)
    requires p <= k <= |ts|
    requires forall i | p <= i < k :: Flat(ts[i]) && !IsSeparator(ts[i])
    requires k == |ts| || ts[k] == RParen || IsSeparator(ts[k])
    ensures ParsePart(ts, p, 0, parts) == Ok(parts + Leaves(ts[p..k]), k)
    decreases k - p
  {
    if p < k {
      PartFlat(ts, p + 1, k, parts + [LeafNode(ts[p])]);
      assert ts[p..k][1..] == ts[p + 1..k];
      assert parts + [LeafNode(ts[p])] + Leaves(ts[p + 1..k]) == parts + Leaves(ts[p..k]);
    } else {
      assert Leaves(ts[p..k]) == [];
      assert parts + [] == parts;
    }
  }

  /** The slots of a body whose first separator is at `k`. */
  lemma SlotsAt(body: seq<Token>, k: nat)
    requires k == FirstSeparator(body) < |body|
    ensures Slots(body) == [body[..k]] + Slots(body[k + 1..])
  {
  }

  /** One turn of the argument loop. */
  lemma ArgsStep(ts: seq<Token>, p: nat, args: seq<Node>, parts: seq<Node>, q: nat)
    requires p < |ts| && ts[p] != RParen
    requires ParsePart(ts, p, 0, []) == Ok(parts, q)
    ensures q <= |ts|
    ensures ParseArgs(ts, p, args) == ParseArgs(ts, SkipSeparator(ts, q), args + Argument(parts))
  {
  }

  /** The argument loop ends at `)` or at the end of the tokens. */
  lemma ArgsEnd(ts: seq<Token>, p: nat, q: nat, args: seq<Node>)
    requires p <= q <= |ts| && (q == |ts| || ts[q] == RParen)
    requires ParseArgs(ts, q, args) == ParseArgs(ts, p, [])
    ensures ParseArgs(ts, p, []) == Ok(args, q)
  {
  }

  /** A call whose argument loop ends at `q`: closed there, or missing
      its `)`. */
  lemma CallOfArgs(ts: seq<Token>, p: nat, args: seq<Node>, q: nat)
    requires p + 1 < |ts| && ts[p].FunctionTok? && ts[p + 1] == LParen
    requires ParseArgs(ts, p + 2, []) == Ok(args, q)
    ensures ParseCall(ts, p) == if q == |ts| then Err(Expected("RPAREN", "EOF")) else Ok(Function(ts[p].name, args), q + 1)
  {
  }

  /** A FUNCTION token not followed by `(`. */
  lemma CallWithoutParen(ts: seq<Token>, p: nat)
    requires p < |ts| && ts[p].FunctionTok?
    requires p + 1 == |ts| || ts[p + 1] != LParen
    ensures ParseCall(ts, p) == Err(Expected("LPAREN", if p + 1 == |ts| then "EOF" else KindName(ts[p + 1])))
  {
  }

  /** The run before the first separator of `ts[p..e]`. */
  lemma RunBeforeSeparator(ts: seq<Token>, p: nat, e: nat)
    requires p <= e <= |ts|
    ensures var k := p + FirstSeparator(ts[p..e]);
      && k <= e
      && (forall i | p <= i < k :: !IsSeparator(ts[i]))
      && (k < e ==> IsSeparator(ts[k]))
  {
    var body := ts[p..e];
    var k := p + FirstSeparator(body);
    forall i | p <= i < k ensures !IsSeparator(ts[i]) {
      assert ts[i] == body[i - p];
    }
    if k < e { assert ts[k] == body[k - p]; }
  }

  lemma ArgsOfSplit(ts: seq<Token>, p: nat, k: nat, e: nat)
    requires p <= k < e <= |ts|
    requires k == p + FirstSeparator(ts[p..e])
    ensures ArgsOf(Slots(ts[p..e])) == Argument(Leaves(ts[p..k])) + ArgsOf(Slots(ts[k + 1..e]))
  {
    var body := ts[p..e];
    SlotsAt(body, k - p);
    assert body[..k - p] == ts[p..k];
    assert body[k - p + 1..] == ts[k + 1..e];
  }

  /** The first slot of a flat argument list, as the argument loop reads it. */
  lemma FirstSlot(ts: seq<Token>, p: nat, e: nat, k: nat, args: seq<Node>)
    requires p < e < |ts| && ts[e] == RParen
    requires forall i | p <= i < e :: Flat(ts[i])
    requires k == p + FirstSeparator(ts[p..e])
    ensures ParseArgs(ts, p, args) == ParseArgs(ts, SkipSeparator(ts, k), args + Argument(Leaves(ts[p..k])))
    ensures SkipSeparator(ts, k) == if k < e then k + 1 else k
  {
    SlotParts(ts, p, e, k);
    ArgsStep(ts, p, args, Leaves(ts[p..k]), k);
  }

  /** The parts of the first slot are its leaves, up to the separator. */
  lemma SlotParts(ts: seq<Token>, p: nat, e: nat, k: nat)
    requires p < e < |ts| && ts[e] == RParen
    requires forall i | p <= i < e :: Flat(ts[i])
    requires k == p + FirstSeparator(ts[p..e])
    ensures ParsePart(ts, p, 0, []) == Ok(Leaves(ts[p..k]), k)
    ensures SkipSeparator(ts, k) == if k < e then k + 1 else k
  {
    RunBeforeSeparator(ts, p, e);
    var leaves := Leaves(ts[p..k]);
    PartFlat(ts, p, k, []);
    assert [] + leaves == leaves;
  }

  /** A flat argument list without separators is one slot. */
  lemma OneSlot(ts: seq<Token>, p: nat, e: nat)
    requires p <= e <= |ts|
    requires FirstSeparator(ts[p..e]) == e - p
    ensures ArgsOf(Slots(ts[p..e])) == Argument(Leaves(ts[p..e]))
  {
    var body := ts[p..e];
    assert Slots(body) == [body];
    assert ArgsOf([body]) == Argument(Leaves(body)) + ArgsOf([]);
  }

  lemma {:induction false} ArgsFlat(ts: seq<Token>, p: nat, e: nat, args: seq<Node>)
    requires p <= e < |ts| && ts[e] == RParen
    requires forall i | p <= i < e :: Flat(ts[i])
    ensures ParseArgs(ts, p, args) == Ok(args + ArgsOf(Slots(ts[p..e])), e)
    decreases e - p, 1
  {
    if p == e {
      ArgsFlatEmpty(ts, p, args);
    } else if p + FirstSeparator(ts[p..e]) == e {
      ArgsFlatOneSlot(ts, p, e, args);
    } else {
      ArgsFlatMore(ts, p, e, args);
    }
  }

  lemma ArgsFlatOneSlot(ts: seq<Token>, p: nat, e: nat, args: seq<Node>)
    requires p < e < |ts| && ts[e] == RParen
    requires forall i | p <= i < e :: Flat(ts[i])
    requires p + FirstSeparator(ts[p..e]) == e
    ensures ParseArgs(ts, p, args) == Ok(args + ArgsOf(Slots(ts[p..e])), e)
  {
    var arg := Argument(Leaves(ts[p..e]));
    FirstSlot(ts, p, e, e, args);
    assert SkipSeparator(ts, e) == e;
    ArgsAtClose(ts, e, args + arg);
    OneSlot(ts, p, e);
  }

  /** A flat argument list with a separator: its first slot, then the
      rest. */
  lemma {:induction false} ArgsFlatMore(ts: seq<Token>, p: nat, e: nat, args: seq<Node>)
    requires p < e < |ts| && ts[e] == RParen
    requires forall i | p <= i < e :: Flat(ts[i])
    requires p + FirstSeparator(ts[p..e]) < e
    ensures ParseArgs(ts, p, args) == Ok(args + ArgsOf(Slots(ts[p..e])), e)
    decreases e - p, 0
  {
    var k := p + FirstSeparator(ts[p..e]);
    var arg := Argument(Leaves(ts[p..k]));
    FirstSlot(ts, p, e, p + FirstSeparator(ts[p..e]), args);
    ArgsFlat(ts, k + 1, e, args + arg);
    ArgsFlatJoin(ts, p, k, e, args);
  }

  lemma ArgsFlatEmpty(ts: seq<Token>, p: nat, args: seq<Node>)
    requires p < |ts| && ts[p] == RParen
    ensures ParseArgs(ts, p, args) == Ok(args + ArgsOf(Slots(ts[p..p])), p)
  {
    assert ts[p..p] == [];
    assert Slots(ts[p..p]) == [[]];
    assert ArgsOf(Slots(ts[p..p])) == [];
    assert args + [] == args;
  }

  /** The argument loop ends at a `)`. */
  lemma ArgsAtClose(ts: seq<Token>, e: nat, args: seq<Node>)
    requires e < |ts| && ts[e] == RParen
    ensures ParseArgs(ts, e, args) == Ok(args, e)
  {
  }

  lemma ArgsFlatJoin(ts: seq<Token>, p: nat, k: nat, e: nat, args: seq<Node>)
    requires p <= k < e <= |ts|
    requires k == p + FirstSeparator(ts[p..e])
    ensures args + Argument(Leaves(ts[p..k])) + ArgsOf(Slots(ts[k + 1..e])) == args + ArgsOf(Slots(ts[p..e]))
  {
    ArgsOfSplit(ts, p, k, e);
    JoinArgs(args, Argument(Leaves(ts[p..k])), ArgsOf(Slots(ts[k + 1..e])));
  }

  lemma JoinArgs(args: seq<Node>, arg: seq<Node>, rest: seq<Node>)
    ensures args + arg + rest == args + (arg + rest)
  {
  }

  /** A call whose argument tokens hold no call and no parenthesis: the
      arguments are the slots between its `;` and `,`, in order; a slot of
      one token gives that token's leaf, a longer slot a CONCAT of its
      leaves, and an empty slot no argument at all. */
  lemma FlatCall(name: string, body: seq<Token>)
    requires forall i | 0 <= i < |body| :: Flat(body[i])
    ensures var ts := [FunctionTok(name), LParen] + body + [RParen];
      ParseCall(ts, 0) == Ok(Function(name, ArgsOf(Slots(body))), |ts|)
  {
    var ts := [FunctionTok(name), LParen] + body + [RParen];
    var e := |ts| - 1;
    assert ts[2..e] == body;
    forall i | 2 <= i < e ensures Flat(ts[i]) {
      assert ts[i] == body[i - 2];
    }
    ArgsFlat(ts, 2, e, []);
    var args := ArgsOf(Slots(body));
    assert [] + args == args;
    CallOfArgs(ts, 0, args, e);
  }

  lemma {:induction false} TopFlat(ts: seq<Token>, p: nat, nodes: seq<Node>)
    requires p <= |ts|
    requires forall i | p <= i < |ts| :: !ts[i].FunctionTok?
    ensures ParseTop(ts, p, nodes) == Ok(nodes + Leaves(ts[p..]), |ts|)
    decreases |ts| - p
  {
    if p < |ts| {
      var leaf := LeafNode(ts[p]);
      TopStep(ts, p, nodes);
      TopFlat(ts, p + 1, nodes + [leaf]);
      LeavesFrom(ts, p);
      JoinArgs(nodes, [leaf], Leaves(ts[p + 1..]));
    } else {
      assert Leaves(ts[p..]) == [];
      assert nodes + [] == nodes;
    }
  }

  /** One turn of the top-level loop over a token that is not a call. */
  lemma TopStep(ts: seq<Token>, p: nat, nodes: seq<Node>)
    requires p < |ts| && !ts[p].FunctionTok?
    ensures ParseTop(ts, p, nodes) == ParseTop(ts, p + 1, nodes + [LeafNode(ts[p])])
  {
  }

  lemma LeavesFrom(ts: seq<Token>, p: nat)
    requires p < |ts|
    ensures Leaves(ts[p..]) == [LeafNode(ts[p])] + Leaves(ts[p + 1..])
  {
    assert ts[p..][1..] == ts[p + 1..];
  }

  /** Without function calls, every token is one top-level node in source
      order: a single node is the result as it is, and none or several are
      wrapped in one CONCAT. */
  lemma FlatFormula(ts: seq<Token>)
    requires forall i | 0 <= i < |ts| :: !ts[i].FunctionTok?
    ensures Parse(ts) == Ok(if |ts| == 1 then LeafNode(ts[0]) else Concat(Leaves(ts)), |ts|)
  {
    TopFlat(ts, 0, []);
    var nodes := [] + Leaves(ts[0..]);
    assert nodes == Leaves(ts) by {
      assert ts[0..] == ts;
    }
  }

  /** A function name with nothing after it stops the parser. */
  lemma LoneNameUnparsed(name: string)
    ensures Parse([FunctionTok(name)]) == Err(Expected("LPAREN", "EOF"))
    ensures Message(Expected("LPAREN", "EOF")) == "Expected LPAREN but got EOF"
  {
    assert ParseExpr([FunctionTok(name)], 0) == Err(Expected("LPAREN", "EOF"));
  }
}
