/** The recursive-descent parser: a cursor over the tokens that also collects the
    referenced names. Each method is proved against the grammar. */
module FormulaParser {
  import opened FormulaSyntax
  import opened Results

  type NodeResult = Result<Node, ParseError>

  /** What a method returned, together with the tokens it left, as a grammar outcome. */
  function Outcome(r: NodeResult, rest: seq<Token>): Parsed
  {
    match r
    case Failure(error) => Failed(error)
    case Success(node) => Read(node, rest)
  }

  class Parser {
    const tokens: seq<Token>
    var index: nat
    var refs: seq<string>

    ghost predicate Valid()
      reads this
    {
      && index < |tokens|
      && tokens[|tokens| - 1] == EndOfInput
      && forall i :: 0 <= i < |tokens| - 1 ==> tokens[i] != EndOfInput
    }

    /** The tokens not yet consumed, without the end marker. */
    ghost function Rest(): (ts: seq<Token>)
      requires Valid()
      reads this
      ensures Peek(ts) == tokens[index]
    {
      tokens[index..|tokens| - 1]
    }

    constructor (body: seq<Token>)
      requires EndOfInput !in body
      ensures Valid() && Rest() == body && refs == []
    {
      tokens := body + [EndOfInput];
      index, refs := 0, [];
    }

    function Current(): (t: Token)
      requires Valid()
      reads this
      ensures t == Peek(Rest())
    {
      tokens[index]
    }

    method Advance() returns (t: Token)
      requires Valid()
      modifies this`index
      ensures Valid() && t == Peek(old(Rest()))
      ensures old(Rest()) == [] ==> index == old(index)
      ensures old(Rest()) != [] ==> index == old(index) + 1 && Rest() == old(Rest())[1..]
    {
      t := Current();
      if t != EndOfInput {
        index := index + 1;
      }
    }

    method ParseOr() returns (r: NodeResult)
      requires Valid()
      modifies this`index, this`refs
      ensures Valid() && Parse(1, old(Rest())) == Outcome(r, Rest())
      ensures r.Success? ==> refs == old(refs) + References(r.value) && index > old(index)
      decreases |tokens| - index, 9
    {
      hide Parse, Continue;
      ghost var start := Rest();
      ChainUnfolds(1, start);
      r := ParseAnd();
      if r.Failure? { return; }
      var left := r.value;
      while Current() == Operator(Or)
        invariant Valid() && index > old(index)
        invariant Parse(1, start) == Continue(1, left, Rest())
        invariant refs == old(refs) + References(left)
        decreases |tokens| - index
      {
        ContinueUnfolds(1, left, Rest());
        var _ := Advance();
        r := ParseAnd();
        if r.Failure? { return; }
        left := Binary(Or, left, r.value);
      }
      ContinueUnfolds(1, left, Rest());
      r := Success(left);
    }

    method ParseAnd() returns (r: NodeResult)
      requires Valid()
      modifies this`index, this`refs
      ensures Valid() && Parse(2, old(Rest())) == Outcome(r, Rest())
      ensures r.Success? ==> refs == old(refs) + References(r.value) && index > old(index)
      decreases |tokens| - index, 7
    {
      hide Parse, Continue;
      ghost var start := Rest();
      ChainUnfolds(2, start);
      r := ParseNot();
      if r.Failure? { return; }
      var left := r.value;
      while Current() == Operator(And)
        invariant Valid() && index > old(index)
        invariant Parse(2, start) == Continue(2, left, Rest())
        invariant refs == old(refs) + References(left)
        decreases |tokens| - index
      {
        ContinueUnfolds(2, left, Rest());
        var _ := Advance();
        r := ParseNot();
        if r.Failure? { return; }
        left := Binary(And, left, r.value);
      }
      ContinueUnfolds(2, left, Rest());
      r := Success(left);
    }

    method ParseNot() returns (r: NodeResult)
      requires Valid()
      modifies this`index, this`refs
      ensures Valid() && Parse(3, old(Rest())) == Outcome(r, Rest())
      ensures r.Success? ==> refs == old(refs) + References(r.value) && index > old(index)
      decreases |tokens| - index, 6
    {
      if Current() == NotToken {
        var _ := Advance();
        r := ParseNot();
        if r.Failure? { return; }
        r := Success(Unary(Not, r.value));
      } else {
        r := ParseComparison();
      }
    }

    method ParseComparison() returns (r: NodeResult)
      requires Valid()
      modifies this`index, this`refs
      ensures Valid() && Parse(4, old(Rest())) == Outcome(r, Rest())
      ensures r.Success? ==> refs == old(refs) + References(r.value) && index > old(index)
      decreases |tokens| - index, 5
    {
      r := ParseAdditive();
      if r.Failure? || !AtLevel(Current(), 4) { return; }
      var left := r.value;
      var token := Advance();
      r := ParseAdditive();
      if r.Failure? { return; }
      if AtLevel(Current(), 4) {
        r := Failure(ChainedComparison);
        return;
      }
      r := Success(Binary(token.op, left, r.value));
    }

    method ParseAdditive() returns (r: NodeResult)
      requires Valid()
      modifies this`index, this`refs
      ensures Valid() && Parse(5, old(Rest())) == Outcome(r, Rest())
      ensures r.Success? ==> refs == old(refs) + References(r.value) && index > old(index)
      decreases |tokens| - index, 4
    {
      hide Parse, Continue;
      ghost var start := Rest();
      ChainUnfolds(5, start);
      r := ParseMultiplicative();
      if r.Failure? { return; }
      var left := r.value;
      while Current() == Operator(Add) || Current() == Operator(Sub)
        invariant Valid() && index > old(index)
        invariant Parse(5, start) == Continue(5, left, Rest())
        invariant refs == old(refs) + References(left)
        decreases |tokens| - index
      {
        ContinueUnfolds(5, left, Rest());
        var token := Advance();
        r := ParseMultiplicative();
        if r.Failure? { return; }
        left := Binary(token.op, left, r.value);
      }
      ContinueUnfolds(5, left, Rest());
      r := Success(left);
    }

    method ParseMultiplicative() returns (r: NodeResult)
      requires Valid()
      modifies this`index, this`refs
      ensures Valid() && Parse(6, old(Rest())) == Outcome(r, Rest())
      ensures r.Success? ==> refs == old(refs) + References(r.value) && index > old(index)
      decreases |tokens| - index, 3
    {
      hide Parse, Continue;
      ghost var start := Rest();
      ChainUnfolds(6, start);
      r := ParseUnaryNumber();
      if r.Failure? { return; }
      var left := r.value;
      while Current() == Operator(Mul) || Current() == Operator(Div)
        invariant Valid() && index > old(index)
        invariant Parse(6, start) == Continue(6, left, Rest())
        invariant refs == old(refs) + References(left)
        decreases |tokens| - index
      {
        ContinueUnfolds(6, left, Rest());
        var token := Advance();
        r := ParseUnaryNumber();
        if r.Failure? { return; }
        left := Binary(token.op, left, r.value);
      }
      ContinueUnfolds(6, left, Rest());
      r := Success(left);
    }

    method ParseUnaryNumber() returns (r: NodeResult)
      requires Valid()
      modifies this`index, this`refs
      ensures Valid() && Parse(7, old(Rest())) == Outcome(r, Rest())
      ensures r.Success? ==> refs == old(refs) + References(r.value) && index > old(index)
      decreases |tokens| - index, 2
    {
      if Current() == Operator(Add) || Current() == Operator(Sub) {
        var token := Advance();
        r := ParseUnaryNumber();
        if r.Failure? { return; }
        r := Success(Unary(if token.op == Add then Plus else Minus, r.value));
      } else {
        r := ParsePrimaryNode();
      }
    }

    method ParsePrimaryNode() returns (r: NodeResult)
      requires Valid()
      modifies this`index, this`refs
      ensures Valid() && ParsePrimary(old(Rest())) == Outcome(r, Rest())
      ensures r.Success? ==> refs == old(refs) + References(r.value) && index > old(index)
      decreases |tokens| - index, 1
    {
      var token := Advance();
      match token
      case Literal(value) =>
        r := Success(Num(value));
      case Identifier(name) =>
        if Current() == LeftParen {
          var _ := Advance();
          r := ParseCallArgs(name);
        } else {
          refs := refs + [name];
          r := Success(Ref(name));
        }
      case LeftParen =>
        r := ParseOr();
        if r.Failure? { return; }
        if Current() != RightParen {
          r := Failure(MissingParen);
          return;
        }
        var _ := Advance();
      case _ =>
        r := Failure(ExpectedOperand);
    }

    /** The arguments of a call, from just after its opening parenthesis. */
    method ParseCallArgs(name: string) returns (r: NodeResult)
      requires Valid()
      modifies this`index, this`refs
      ensures Valid() && ParseCall(name, old(Rest())) == Outcome(r, Rest())
      ensures r.Success? ==> refs == old(refs) + References(r.value) && index > old(index)
      decreases |tokens| - index, 10
    {
      hide Parse, ParseArgs;
      var args: seq<Node> := [];
      if Current() != RightParen {
        var list := ParseArguments();
        if list.Failure? {
          return Failure(list.error);
        }
        args := list.value;
      }
      if Current() != RightParen {
        r := Failure(MissingCallParen(name));
        return;
      }
      var _ := Advance();
      r := Success(Call(ToLower(name), args));
    }

    method ParseArguments() returns (r: Result<seq<Node>, ParseError>)
      requires Valid()
      modifies this`index, this`refs
      ensures Valid()
      ensures ParseArgs(old(Rest())) == match r case Success(args) => ReadList(args, Rest()) case Failure(e) => FailedList(e)
      ensures r.Success? ==> refs == old(refs) + ReferencesOfAll(r.value) && index > old(index)
      decreases |tokens| - index, 10, 0
    {
      hide Parse, ParseArgs;
      ghost var start := Rest();
      var args: seq<Node> := [];
      var more := true;
      assert ParseArgs(start) == Prepend([], ParseArgs(start)) by { NothingPrepended(ParseArgs(start)); }
      while more
        invariant Valid() && index >= old(index) && (!more ==> index > old(index))
        invariant more ==> ParseArgs(start) == Prepend(args, ParseArgs(Rest()))
        invariant !more ==> ParseArgs(start) == ReadList(args, Rest())
        invariant refs == old(refs) + ReferencesOfAll(args)
        decreases more, |tokens| - index
      {
        ArgsUnfold(args, Rest());
        var node := ParseOr();
        if node.Failure? {
          return Failure(node.error);
        }
        AppendReferences(args, node.value);
        args := args + [node.value];
        more := Current() == Comma;
        if more {
          var _ := Advance();
        }
      }
      r := Success(args);
    }
  }

  lemma NothingPrepended(l: ParsedList)
    ensures Prepend([], l) == l
  {
    if l.ReadList? { assert [] + l.nodes == l.nodes; }
  }

  /** The definitions of a chain, one unfolding at a time. */
  lemma ChainUnfolds(level: nat, ts: seq<Token>)
    requires level in {1, 2, 5, 6}
    ensures Parse(level, ts) ==
            var left := Parse(level + 1, ts);
            if left.Failed? then left else Continue(level, left.node, left.rest)
  {
  }

  lemma ContinueUnfolds(level: nat, left: Node, ts: seq<Token>)
    requires level in {1, 2, 5, 6}
    ensures Continue(level, left, ts) ==
            if !AtLevel(Peek(ts), level) then Read(left, ts)
            else
              var right := Parse(level + 1, ts[1..]);
              if right.Failed? then right
              else Continue(level, Binary(ts[0].op, left, right.node), right.rest)
  {
  }

  /** An argument list read after `args` have already been read. */
  function Prepend(args: seq<Node>, l: ParsedList): ParsedList
  {
    match l
    case FailedList(_) => l
    case ReadList(nodes, rest) => ReadList(args + nodes, rest)
  }

  lemma ArgsUnfold(args: seq<Node>, ts: seq<Token>)
    ensures Prepend(args, ParseArgs(ts)) ==
            var first := Parse(1, ts);
            if first.Failed? then FailedList(first.error)
            else if !Peek(first.rest).Comma? then ReadList(args + [first.node], first.rest)
            else Prepend(args + [first.node], ParseArgs(first.rest[1..]))
  {
    var first := Parse(1, ts);
    if first.Read? && Peek(first.rest).Comma? {
      var others := ParseArgs(first.rest[1..]);
      if others.ReadList? {
        assert args + ([first.node] + others.nodes) == (args + [first.node]) + others.nodes;
      }
    }
  }

  lemma {:induction false} AppendReferences(ns: seq<Node>, n: Node)
    ensures ReferencesOfAll(ns + [n]) == ReferencesOfAll(ns) + References(n)
  {
    if ns == [] {
      assert ns + [n] == [n];
    } else {
      AppendReferences(ns[1..], n);
      assert (ns + [n])[1..] == ns[1..] + [n];
    }
  }

  /** Parses a whole expression; on success also returns the referenced names in
      expression order. */
  method ParseTypedFormula(body: seq<Token>) returns (r: NodeResult, refs: seq<string>)
    requires EndOfInput !in body
    ensures r == match ParseFormula(body) case Tree(root) => Success(root) case SyntaxError(e) => Failure(e)
    ensures r.Success? ==> refs == References(r.value)
  {
    refs := [];
    var parser := new Parser(body);
    r := parser.ParseOr();
    if r.Success? {
      if parser.Current() != EndOfInput {
        r := Failure(UnexpectedToken);
      } else {
        refs := parser.refs;
      }
    }
  }

  ghost function DistinctFrom(seen: set<string>, names: seq<string>): seq<string>
    decreases |names|
  {
    if names == [] then []
    else if names[0] in seen then DistinctFrom(seen, names[1..])
    else [names[0]] + DistinctFrom(seen + {names[0]}, names[1..])
  }

  /** Each referenced name once, in first-seen order. */
  method DistinctReferences(names: seq<string>) returns (result: seq<string>)
    ensures forall x :: x in result <==> x in names
    ensures forall i, j :: 0 <= i < j < |result| ==> result[i] != result[j]
    ensures result == DistinctFrom({}, names)
  {
    result := [];
    var seen: set<string> := {};
    for k := 0 to |names|
      invariant seen == set x | x in names[..k]
      invariant forall x :: x in result <==> x in seen
      invariant forall i, j :: 0 <= i < j < |result| ==> result[i] != result[j]
      invariant DistinctFrom({}, names) == result + DistinctFrom(seen, names[k..])
    {
      assert names[..k + 1] == names[..k] + [names[k]];
      if names[k] !in seen {
        seen := seen + {names[k]};
        result := result + [names[k]];
      }
    }
    assert names[..|names|] == names;
  }
}
