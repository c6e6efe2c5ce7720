/** Analysis of one formula against known bindings: parsing, memoised inference, and the
    record kept of the result. */
module FormulaAnalysis {
  import opened FormulaSyntax
  import opened FormulaParser
  import opened FormulaReader
  import opened FormulaTyping
  import opened FormulaSoundness
  import opened Results

  datatype AnalysisError =
    | Syntax(reading: ReadError)
    | Typing(typing: TypeError)
    | InvalidName(name: string)
    | DuplicatesInput(name: string)
    | DuplicateName(name: string)
    | DependencyCycle(name: string)

  /** An accepted formula: tree, recorded inferences, canonical text, referenced names. */
  datatype TypedFormula = TypedFormula(
    root: Node,
    types: map<Node, Inference>,
    canonical: seq<Token>,
    references: seq<string>,
    typ: StaticType,
    signature: string)

  /** The record is what parsing and inference under `env` give for this tree. */
  ghost predicate Describes(f: TypedFormula, root: Node, env: Environment)
  {
    && f.root == root
    && Typed(root, env, f.types)
    && f.canonical == Canonical(root)
    && f.references == DistinctFrom({}, References(root))
    && f.typ == f.types[root].typ && f.signature == f.types[root].signature
  }

  class Inferrer {
    const env: Environment
    var inferred: map<Node, Inference>

    ghost predicate Valid()
      reads this
    {
      Sound(inferred, env) && Closed(inferred)
    }

    constructor (env: Environment)
      ensures Valid() && this.env == env
    {
      this.env := env;
      inferred := map[];
    }

    /** Infers a tree, recording every node of it. */
    method InferNode(n: Node) returns (r: Inferred)
      requires Valid()
      modifies this
      ensures Valid() && r == Infer(n, env)
      ensures old(inferred.Keys) <= inferred.Keys && (r.Success? ==> n in inferred)
      decreases n, 1
    {
      if n in inferred {
        return Success(inferred[n]);
      }
      match n {
        case Num(v) => r := Success(Inference(DIMENSIONLESS, "", Some(v)));
        case Ref(name) =>
          var b := Resolve(env, name);
          r := if b.Failure? then Failure(b.error) else Success(Inference(b.value.typ, b.value.signature, None));
        case Unary(op, v) =>
          r := InferNode(v);
          if r.Failure? { return; }
          r := InferUnary(op, r.value);
        case Binary(op, left, right) =>
          r := InferNode(left);
          if r.Failure? { return; }
          var l := r.value;
          r := InferNode(right);
          if r.Failure? { return; }
          r := InferBinary(op, l, r.value);
        case Call(fn, args) =>
          var many := InferArgs(args);
          if many.Failure? { return Failure(many.error); }
          r := InferCall(fn, many.value);
      }
      if r.Success? {
        Record(n, r.value);
      }
    }

    method InferArgs(args: seq<Node>) returns (r: Result<seq<Inference>, TypeError>)
      requires Valid()
      modifies this
      ensures Valid() && r == InferAll(args, env)
      ensures old(inferred.Keys) <= inferred.Keys
      ensures r.Success? ==> forall k :: 0 <= k < |args| ==> args[k] in inferred
      decreases args, 0
    {
      hide InferAll, Infer;
      var arguments: seq<Inference> := [];
      assert args[0..] == args;
      PrependNothing([], InferAll(args, env));
      for k := 0 to |args|
        invariant Valid() && old(inferred.Keys) <= inferred.Keys
        invariant |arguments| == k && forall j :: 0 <= j < k ==> args[j] in inferred
        invariant InferAll(args, env) == PrependInferred(arguments, InferAll(args[k..], env))
      {
        InferAllUnfolds(arguments, args[k..], env);
        assert args[k..][1..] == args[k + 1..];
        var argument := InferNode(args[k]);
        if argument.Failure? { return Failure(argument.error); }
        arguments := arguments + [argument.value];
      }
      r := Success(arguments);
      NoArguments(env);
      PrependNothing(arguments, Success([]));
      assert args[|args|..] == [];
    }

    /** Adds the inference of a node whose children are all recorded. */
    method Record(n: Node, i: Inference)
      requires Valid() && Infer(n, env) == Success(i)
      requires ChildrenIn(n, inferred)
      modifies this
      ensures Valid() && inferred == old(inferred)[n := i]
    {
      inferred := inferred[n := i];
      RecordKeepsClosed(old(inferred), n, i);
    }
  }

  ghost predicate ChildrenIn(n: Node, inferred: map<Node, Inference>)
  {
    match n
    case Num(_) => true
    case Ref(_) => true
    case Unary(_, v) => v in inferred
    case Binary(_, l, r) => l in inferred && r in inferred
    case Call(_, args) => forall k :: 0 <= k < |args| ==> args[k] in inferred
  }

  function PrependInferred(head: seq<Inference>, r: Result<seq<Inference>, TypeError>): Result<seq<Inference>, TypeError>
  {
    if r.Failure? then r else Success(head + r.value)
  }

  lemma PrependNothing(head: seq<Inference>, r: Result<seq<Inference>, TypeError>)
    ensures PrependInferred([], r) == r
    ensures PrependInferred(head, Success([])) == Success(head)
  {
    if r.Success? { assert [] + r.value == r.value; }
    assert head + [] == head;
  }

  lemma NoArguments(env: Environment)
    ensures InferAll([], env) == Success([])
  {
  }

  lemma InferAllUnfolds(head: seq<Inference>, ns: seq<Node>, env: Environment)
    requires ns != []
    ensures PrependInferred(head, InferAll(ns, env)) ==
            var first := Infer(ns[0], env);
            if first.Failure? then Failure(first.error)
            else PrependInferred(head + [first.value], InferAll(ns[1..], env))
  {
    hide Infer;
    var first, others := Infer(ns[0], env), InferAll(ns[1..], env);
    if first.Success? && others.Success? {
      assert head + ([first.value] + others.value) == (head + [first.value]) + others.value;
    }
  }

  lemma {:induction false} RecordsMonotone(a: map<Node, Inference>, b: map<Node, Inference>, n: Node)
    requires a.Keys <= b.Keys && Records(a, n)
    ensures Records(b, n)
    decreases n
  {
    match n
    case Num(_) =>
    case Ref(_) =>
    case Unary(_, v) => RecordsMonotone(a, b, v);
    case Binary(_, l, r) => RecordsMonotone(a, b, l); RecordsMonotone(a, b, r);
    case Call(_, args) =>
      forall k | 0 <= k < |args| ensures Records(b, args[k]) {
        RecordsMonotone(a, b, args[k]);
      }
  }

  lemma RecordKeepsClosed(inferred: map<Node, Inference>, n: Node, i: Inference)
    requires Closed(inferred) && ChildrenIn(n, inferred)
    ensures Closed(inferred[n := i])
  {
    var more := inferred[n := i];
    forall m | m in inferred ensures Records(more, m) {
      RecordsMonotone(inferred, more, m);
    }
    assert Records(more, n);
  }

  /** Analysis of a formula that depends on no other formula. */
  method AnalyzeTypedFormula(expression: string, bindings: Environment)
    returns (r: Result<TypedFormula, AnalysisError>)
    ensures r.Success? <==> ReadFormula(expression).Success? && Infer(ReadFormula(expression).value, bindings).Success?
    ensures r.Success? ==> Describes(r.value, ReadFormula(expression).value, bindings)
    ensures ReadFormula(expression).Failure? ==> r == Failure(Syntax(ReadFormula(expression).error))
  {
    hide ReadFormula;
    var parsed, refs := ReadExpression(expression);
    if parsed.Failure? {
      return Failure(Syntax(parsed.error));
    }
    var root := parsed.value;
    var inferrer := new Inferrer(bindings);
    var inference := inferrer.InferNode(root);
    if inference.Failure? {
      return Failure(Typing(inference.error));
    }
    var references := DistinctReferences(refs);
    assert Infer(root, bindings) == Success(inferrer.inferred[root]);
    r := Success(TypedFormula(root, inferrer.inferred, Canonical(root), references,
                              inference.value.typ, inference.value.signature));
  }
}
