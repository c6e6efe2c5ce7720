/** Abstract and token syntax of the formula language: trees, tokens, the
    grammar as a function over the unread tokens, and the canonical printer. */
module FormulaSyntax {

  datatype UnaryOp = Not | Plus | Minus

  datatype BinaryOp = Or | And | Gt | Ge | Lt | Le | Eq | Ne | Add | Sub | Mul | Div

  datatype Node =
    | Num(value: real)
    | Ref(name: string)
    | Unary(uop: UnaryOp, operand: Node)
    | Binary(op: BinaryOp, left: Node, right: Node)
    | Call(fn: string, args: seq<Node>)

  /** Number tokens carry the exact value of their literal. A '+' or '-' token is the
      same token in unary and in binary position. */
  datatype Token =
    | Identifier(name: string)
    | Literal(value: real)
    | Operator(op: BinaryOp)
    | NotToken
    | LeftParen
    | RightParen
    | Comma
    | EndOfInput

  /** Precedence of a binary operator, which is also its grammar level. */
  function Level(op: BinaryOp): (level: nat)
  {
    match op
    case Or => 1
    case And => 2
    case Gt | Ge | Lt | Le | Eq | Ne => 4
    case Add | Sub => 5
    case Mul | Div => 6
  }

  predicate IsComparison(op: BinaryOp) { Level(op) == 4 }

  function LowerChar(c: char): char
  {
    if 'A' <= c <= 'Z' then c - 'A' + 'a' else c
  }

  function ToLower(s: string): string
  {
    seq(|s|, i requires 0 <= i < |s| => LowerChar(s[i]))
  }

  /** Names referenced by a tree, in expression order, with repetitions. */
  function References(n: Node): seq<string>
  {
    match n
    case Num(_) => []
    case Ref(name) => [name]
    case Unary(_, v) => References(v)
    case Binary(_, l, r) => References(l) + References(r)
    case Call(_, args) => ReferencesOfAll(args)
  }

  function ReferencesOfAll(ns: seq<Node>): seq<string>
  {
    if ns == [] then [] else References(ns[0]) + ReferencesOfAll(ns[1..])
  }

  // ----- the grammar -----

  datatype ParseError =
    | ExpectedOperand
    | ChainedComparison
    | MissingParen
    | MissingCallParen(fn: string)
    | UnexpectedToken

  /** Outcome of reading one phrase: the tree and the tokens left over. */
  datatype Parsed = Failed(error: ParseError) | Read(node: Node, rest: seq<Token>)

  datatype ParsedList = FailedList(error: ParseError) | ReadList(nodes: seq<Node>, rest: seq<Token>)

  /** The token a parser sees next; past the last token it sees the end of input. */
  function Peek(ts: seq<Token>): Token
  {
    if ts == [] then EndOfInput else ts[0]
  }

  predicate AtLevel(t: Token, level: nat)
  {
    t.Operator? && Level(t.op) == level
  }

  predicate IsSign(t: Token)
  {
    t == Operator(Add) || t == Operator(Sub)
  }

  /** The grammar. Levels 1, 2, 5 and 6 are left-associative chains, level 4 is a single
      comparison, level 3 is NOT, level 7 is a signed operand and level 8 a primary. */
  function Parse(level: nat, ts: seq<Token>): (r: Parsed)
    requires 1 <= level <= 8
    ensures r.Read? ==> |r.rest| < |ts|
    decreases |ts|, 9 - level
  {
    if level == 8 then
      ParsePrimary(ts)
    else if level == 7 then
      if IsSign(Peek(ts)) then
        var v := Parse(7, ts[1..]);
        if v.Failed? then v
        else Read(Unary(if ts[0].op == Add then Plus else Minus, v.node), v.rest)
      else ParsePrimary(ts)
    else if level == 3 then
      if Peek(ts).NotToken? then
        var v := Parse(3, ts[1..]);
        if v.Failed? then v else Read(Unary(Not, v.node), v.rest)
      else Parse(4, ts)
    else
      var left := Parse(level + 1, ts);
      if left.Failed? then left else Continue(level, left.node, left.rest)
  }

  /** Extends an operand already read by whatever operators of this level follow. */
  function Continue(level: nat, left: Node, ts: seq<Token>): (r: Parsed)
    requires 1 <= level <= 6 && level != 3
    ensures r.Read? ==> |r.rest| <= |ts|
    decreases |ts|, 9
  {
    if !AtLevel(Peek(ts), level) then Read(left, ts)
    else
      var right := Parse(level + 1, ts[1..]);
      if right.Failed? then right
      else if level == 4 then
        if AtLevel(Peek(right.rest), 4) then Failed(ChainedComparison)
        else Read(Binary(ts[0].op, left, right.node), right.rest)
      else Continue(level, Binary(ts[0].op, left, right.node), right.rest)
  }

  function ParsePrimary(ts: seq<Token>): (r: Parsed)
    ensures r.Read? ==> |r.rest| < |ts|
    decreases |ts|, 0
  {
    match Peek(ts)
    case Literal(v) => Read(Num(v), ts[1..])
    case Identifier(name) =>
      if Peek(ts[1..]).LeftParen? then ParseCall(name, ts[2..]) else Read(Ref(name), ts[1..])
    case LeftParen =>
      var inner := Parse(1, ts[1..]);
      if inner.Failed? then inner
      else if !Peek(inner.rest).RightParen? then Failed(MissingParen)
      else Read(inner.node, inner.rest[1..])
    case _ => Failed(ExpectedOperand)
  }

  /** The rest of a call, after its opening parenthesis. */
  function ParseCall(name: string, ts: seq<Token>): (r: Parsed)
    ensures r.Read? ==> |r.rest| < |ts|
    decreases |ts|, 10
  {
    var args := if Peek(ts).RightParen? then ReadList([], ts) else ParseArgs(ts);
    if args.FailedList? then Failed(args.error)
    else if !Peek(args.rest).RightParen? then Failed(MissingCallParen(name))
    else Read(Call(ToLower(name), args.nodes), args.rest[1..])
  }

  /** One or more comma-separated arguments. */
  function ParseArgs(ts: seq<Token>): (r: ParsedList)
    ensures r.ReadList? ==> |r.rest| < |ts|
    decreases |ts|, 9
  {
    var first := Parse(1, ts);
    if first.Failed? then FailedList(first.error)
    else if !Peek(first.rest).Comma? then ReadList([first.node], first.rest)
    else
      var others := ParseArgs(first.rest[1..]);
      if others.FailedList? then others else ReadList([first.node] + others.nodes, others.rest)
  }

  datatype ParseResult = SyntaxError(error: ParseError) | Tree(root: Node)

  /** A whole expression: one phrase of the lowest level and nothing after it. */
  function ParseFormula(ts: seq<Token>): ParseResult
  {
    var r := Parse(1, ts);
    if r.Failed? then SyntaxError(r.error)
    else if r.rest != [] then SyntaxError(UnexpectedToken)
    else Tree(r.node)
  }

  // ----- the canonical printer -----

  function Precedence(n: Node): nat
  {
    match n
    case Binary(op, _, _) => Level(op)
    case Unary(_, _) => 7
    case _ => 8
  }

  /** Operators whose right operand is printed one precedence higher. */
  predicate RaisesRight(op: BinaryOp)
  {
    op == Sub || op == Div || IsComparison(op)
  }

  function RightPrecedence(op: BinaryOp): nat
  {
    if RaisesRight(op) then Level(op) + 1 else Level(op)
  }

  function Print(n: Node, parent: nat): seq<Token>
    decreases n, 1
  {
    if Precedence(n) < parent then [LeftParen] + PrintBare(n) + [RightParen] else PrintBare(n)
  }

  function PrintBare(n: Node): (text: seq<Token>)
    decreases n, 0
  {
    match n
    case Num(v) => if v < 0.0 then [Operator(Sub), Literal(-v)] else [Literal(v)]
    case Ref(name) => [Identifier(name)]
    case Unary(Not, v) => [NotToken] + Print(v, 7)
    case Unary(Plus, v) => [Operator(Add)] + Print(v, 7)
    case Unary(Minus, v) => [Operator(Sub)] + Print(v, 7)
    case Binary(op, l, r) => Print(l, Level(op)) + [Operator(op)] + Print(r, RightPrecedence(op))
    case Call(fn, args) => [Identifier(fn), LeftParen] + PrintArgs(args) + [RightParen]
  }

  function PrintArgs(args: seq<Node>): seq<Token>
    decreases args, 0
  {
    if args == [] then []
    else if |args| == 1 then Print(args[0], 0)
    else Print(args[0], 0) + [Comma] + PrintArgs(args[1..])
  }

  function Canonical(n: Node): seq<Token>
  {
    Print(n, 0)
  }
}
