/** Reading the canonical text back re-associates chains of operators: exactly when the tree
    read back still types, and when it keeps its meaning. */
module FormulaCanonical {
  import opened FormulaSyntax
  import opened FormulaRotation
  import opened FormulaRoundTrip
  import opened FormulaTyping
  import opened FormulaEvaluation
  import opened FormulaSoundness
  import opened Results
  import opened Strings
  import opened Units

  /** Left operand first; the first failure is the result. */
  function EvalBoth(op: BinaryOp, typ: StaticType, x: Evaluated, y: Evaluated): Evaluated
  {
    if x.Failure? then x else if y.Failure? then y else EvalBinary(op, typ, x.value, y.value)
  }

  /** Evaluation with every type inferred on the spot. */
  function Meaning(n: Node, env: Environment, values: Inputs): Evaluated
    decreases n, 1
  {
    var i := Infer(n, env);
    if i.Failure? then Failure(NotTypeChecked)
    else
      match n
      case Num(x) => Success(Numeric(DIMENSIONLESS, x))
      case Ref(name) => EvalInput(name, i.value.typ, values)
      case Unary(op, v) =>
        var x := Meaning(v, env, values);
        if x.Failure? then x else EvalUnary(op, i.value.typ, x.value)
      case Binary(op, l, r) =>
        EvalBoth(op, i.value.typ, Meaning(l, env, values), Meaning(r, env, values))
      case Call(fn, args) =>
        var xs := Meanings(args, env, values);
        if xs.Failure? then Failure(xs.error) else EvalCall(fn, i.value.typ, xs.value)
  }

  function Meanings(ns: seq<Node>, env: Environment, values: Inputs): Result<seq<Value>, EvalError>
    decreases ns, 0
  {
    if ns == [] then Success([])
    else
      var first := Meaning(ns[0], env, values);
      if first.Failure? then Failure(first.error)
      else
        var others := Meanings(ns[1..], env, values);
        if others.Failure? then others else Success([first.value] + others.value)
  }

  /** Evaluation over recorded inferences is evaluation over inferred ones. */
  lemma {:induction false} EvaluateIsMeaning(n: Node, env: Environment, types: map<Node, Inference>, values: Inputs)
    requires Typed(n, env, types)
    ensures Evaluate(n, types, values) == Meaning(n, env, values)
    decreases n, 1
  {
    hide InferUnary, InferBinary, InferCall, EvalInput, EvalUnary, EvalBinary, EvalCall;
    assert Infer(n, env) == Success(types[n]);
    match n
    case Num(_) =>
    case Ref(_) =>
    case Unary(_, v) => EvaluateIsMeaning(v, env, types, values);
    case Binary(_, l, r) =>
      EvaluateIsMeaning(l, env, types, values);
      EvaluateIsMeaning(r, env, types, values);
    case Call(_, args) => EvaluateAllIsMeanings(args, env, types, values);
  }

  lemma {:induction false} EvaluateAllIsMeanings(ns: seq<Node>, env: Environment, types: map<Node, Inference>,
                                                 values: Inputs)
    requires Sound(types, env) && forall k :: 0 <= k < |ns| ==> Records(types, ns[k])
    ensures EvaluateAll(ns, types, values) == Meanings(ns, env, values)
    decreases ns, 0
  {
    hide Evaluate, Meaning;
    if ns != [] {
      EvaluateIsMeaning(ns[0], env, types, values);
      assert forall k :: 0 <= k < |ns| - 1 ==> ns[1..][k] == ns[k + 1];
      EvaluateAllIsMeanings(ns[1..], env, types, values);
    }
  }

  // ----- meaning has the inferred type -----

  /** The meaning is a value of the inferred type, or the tree is not a constant. */
  ghost predicate SoundAt(n: Node, env: Environment, values: Inputs)
  {
    var i := Infer(n, env);
    && i.Success? && WellFormed(i.value)
    && match Meaning(n, env, values)
       case Success(v) => HasType(v, i.value)
       case Failure(_) => i.value.constant.None?
  }

  lemma SoundBinary(op: BinaryOp, a: Node, b: Node, env: Environment, values: Inputs)
    requires SoundAt(a, env, values) && SoundAt(b, env, values) && Infer(Binary(op, a, b), env).Success?
    ensures SoundAt(Binary(op, a, b), env, values)
  {
    hide InferBinary, EvalBinary, WellFormed, HasType;
    var i, j := Infer(a, env).value, Infer(b, env).value;
    var x, y := Meaning(a, env, values), Meaning(b, env, values);
    BinaryShape(op, i, j);
    BinaryConstant(op, i, j);
    if x.Success? && y.Success? {
      BinarySound(op, i, j, x.value, y.value);
    }
  }

  lemma {:induction false} MeaningIsSound(n: Node, env: Environment, values: Inputs)
    requires UnitsTrimmed(n, env) && Infer(n, env).Success?
    ensures SoundAt(n, env, values)
    decreases n, 1
  {
    hide InferUnary, InferBinary, InferCall, EvalUnary, EvalBinary, EvalCall;
    match n
    case Num(_) =>
    case Ref(name) =>
      assert name in References(n);
    case Unary(op, v) =>
      MeaningIsSound(v, env, values);
      var i, x := Infer(v, env).value, Meaning(v, env, values);
      UnarySound(op, i, if x.Success? then x.value else AnyOf(i));
      if x.Failure? { UnaryConstant(op, i); }
    case Binary(op, l, r) =>
      MeaningIsSound(l, env, values);
      MeaningIsSound(r, env, values);
      SoundBinary(op, l, r, env, values);
    case Call(fn, args) =>
      MeaningsAreSound(args, env, values);
      InferenceShapes(args, env);
      CallShape(fn, InferAll(args, env).value);
      var xs := Meanings(args, env, values);
      if xs.Success? {
        CallSound(fn, InferAll(args, env).value, xs.value);
      }
  }

  lemma {:induction false} MeaningsAreSound(ns: seq<Node>, env: Environment, values: Inputs)
    requires forall r :: r in ReferencesOfAll(ns) && r in env ==> Trimmed(env[r].typ.unit)
    requires InferAll(ns, env).Success?
    ensures var many := InferAll(ns, env).value;
            match Meanings(ns, env, values)
            case Success(vs) => |vs| == |many| && forall k :: 0 <= k < |vs| ==> HasType(vs[k], many[k])
            case Failure(_) => exists k :: 0 <= k < |many| && many[k].constant.None?
    decreases ns, 0
  {
    hide Infer, Meaning, WellFormed, HasType;
    if ns != [] {
      MeaningIsSound(ns[0], env, values);
      MeaningsAreSound(ns[1..], env, values);
      var many, tail := InferAll(ns, env).value, InferAll(ns[1..], env).value;
      assert many == [many[0]] + tail;
      if Meaning(ns[0], env, values).Failure? {
        assert many[0].constant.None?;
      } else if Meanings(ns[1..], env, values).Failure? {
        var k :| 0 <= k < |tail| && tail[k].constant.None?;
        assert many[k + 1].constant.None?;
      }
    }
  }

  // ----- one rotation -----

  /** Same inference and same evaluation. */
  ghost predicate SameMeaning(a: Node, b: Node, env: Environment, values: Inputs)
  {
    && Infer(a, env).Success? && Infer(a, env) == Infer(b, env)
    && Meaning(a, env, values) == Meaning(b, env, values)
  }

  lemma BinaryCongruence(op: BinaryOp, a: Node, a': Node, b: Node, b': Node, env: Environment, values: Inputs)
    requires SameMeaning(a, a', env, values) && SameMeaning(b, b', env, values)
    requires Infer(Binary(op, a, b), env).Success?
    ensures SameMeaning(Binary(op, a, b), Binary(op, a', b'), env, values)
  {
    hide InferBinary, EvalBinary;
  }

  lemma InferParts(op: BinaryOp, a: Node, b: Node, env: Environment)
    requires Infer(Binary(op, a, b), env).Success?
    ensures Infer(a, env).Success? && Infer(b, env).Success?
    ensures Infer(Binary(op, a, b), env) == InferBinary(op, Infer(a, env).value, Infer(b, env).value)
  {
    hide InferBinary;
  }

  predicate IsValue(r: Evaluated) { r.Success? && !r.value.missing }

  /** The tree read back for a nesting types exactly if the pair types safely, and then keeps
      the meaning exactly if some operand fails or is missing or the pair keeps its values. */
  lemma RotationKeepsMeaning(op: BinaryOp, left: Node, r: Node, env: Environment, values: Inputs)
    requires r.Binary? && Flattened(op, r.op) && Infer(Binary(op, left, r), env).Success?
    requires SoundAt(left, env, values) && SoundAt(r.left, env, values) && SoundAt(r.right, env, values)
    ensures Infer(r.left, env).Success? && Infer(r.right, env).Success?
    ensures var rotated := Binary(r.op, Binary(op, left, r.left), r.right);
            var i, j, k := Infer(left, env).value, Infer(r.left, env).value, Infer(r.right, env).value;
            && (Infer(rotated, env).Success? <==> TypesSafely(op, r.op, i, j))
            && (Infer(rotated, env).Success? ==>
                  && Infer(rotated, env) == Infer(Binary(op, left, r), env)
                  && (Meaning(rotated, env, values) == Meaning(Binary(op, left, r), env, values) <==>
                        || !IsValue(Meaning(left, env, values)) || !IsValue(Meaning(r.left, env, values))
                        || !IsValue(Meaning(r.right, env, values))
                        || ValuesSafely(op, i, j, k)))
  {
    hide InferBinary, EvalBinary, WellFormed, HasType, TypesSafely, ValuesSafely, Flattened;
    InferParts(op, left, r, env);
    InferParts(r.op, r.left, r.right, env);
    var i, j, k := Infer(left, env).value, Infer(r.left, env).value, Infer(r.right, env).value;
    RotationTypes(op, r.op, i, j, k);
    var x, y, z := Meaning(left, env, values), Meaning(r.left, env, values), Meaning(r.right, env, values);
    if TypesSafely(op, r.op, i, j) {
      if x.Success? && y.Success? {
        BinarySound(op, i, j, x.value, y.value);
        if z.Success? {
          BinarySound(r.op, j, k, y.value, z.value);
          RotationValues(op, r.op, i, j, k, x.value, y.value, z.value);
        }
      }
    }
  }

  // ----- every flattened pair -----

  datatype Aspect = Typing | Values

  predicate PairIsSafe(a: Aspect, op: BinaryOp, inner: BinaryOp, i: Inference, j: Inference, k: Inference)
  {
    TypesSafely(op, inner, i, j) && (a == Values ==> ValuesSafely(op, i, j, k))
  }

  /** Every pair is safe that is flattened when `r` is attached to an operand inferred as `i`. */
  predicate SafeChain(a: Aspect, i: Inference, op: BinaryOp, r: Node, env: Environment)
    decreases r, 2
  {
    if r.Binary? && Flattened(op, r.op) then
      var j, k := Infer(r.left, env), Infer(r.right, env);
      && j.Success? && k.Success?
      && PairIsSafe(a, op, r.op, i, j.value, k.value)
      && SafeChain(a, i, op, r.left, env)
      && var p := InferBinary(op, i, j.value);
         p.Success? && SafeChain(a, p.value, r.op, r.right, env)
    else SafeTree(a, r, env)
  }

  /** Every pair is safe that the canonical print flattens. */
  predicate SafeTree(a: Aspect, n: Node, env: Environment)
    decreases n, 1
  {
    match n
    case Num(_) => true
    case Ref(_) => true
    case Unary(_, v) => SafeTree(a, v, env)
    case Binary(op, l, r) =>
      SafeTree(a, l, env) && Infer(l, env).Success? && SafeChain(a, Infer(l, env).value, op, r, env)
    case Call(_, args) => forall k :: 0 <= k < |args| ==> SafeTree(a, args[k], env)
  }

  lemma {:induction false} AttachMeaning(left: Node, op: BinaryOp, r: Node, env: Environment, values: Inputs)
    requires Infer(Binary(op, left, r), env).Success? && SoundAt(left, env, values) && UnitsTrimmed(r, env)
    requires SafeChain(Values, Infer(left, env).value, op, r, env)
    ensures SameMeaning(Attach(left, op, r), Binary(op, left, r), env, values)
    decreases r, 2
  {
    hide Infer, Meaning, InferBinary, SoundAt, TypesSafely, ValuesSafely;
    InferParts(op, left, r, env);
    if r.Binary? && Flattened(op, r.op) {
      var inner := Binary(op, left, r.left);
      InferParts(r.op, r.left, r.right, env);
      MeaningIsSound(r.left, env, values);
      MeaningIsSound(r.right, env, values);
      RotationKeepsMeaning(op, left, r, env, values);
      InferParts(r.op, inner, r.right, env);
      InferParts(op, left, r.left, env);
      AttachMeaning(left, op, r.left, env, values);
      var a := Attach(left, op, r.left);
      BinaryCongruence(r.op, inner, a, r.right, r.right, env, values);
      SoundBinary(op, left, r.left, env, values);
      SoundCopy(a, inner, env, values);
      AttachMeaning(a, r.op, r.right, env, values);
    } else {
      ReassociateMeaning(r, env, values);
      BinaryCongruence(op, left, left, r, Reassociate(r), env, values);
    }
  }

  lemma SoundCopy(a: Node, b: Node, env: Environment, values: Inputs)
    requires SameMeaning(a, b, env, values) && SoundAt(b, env, values)
    ensures SoundAt(a, env, values)
  {
    hide Infer, Meaning, WellFormed, HasType;
  }

  lemma {:induction false} ReassociateMeaning(n: Node, env: Environment, values: Inputs)
    requires Infer(n, env).Success? && UnitsTrimmed(n, env) && SafeTree(Values, n, env)
    ensures SameMeaning(Reassociate(n), n, env, values)
    decreases n, 1
  {
    hide InferUnary, InferBinary, InferCall, EvalInput, EvalUnary, EvalBinary, EvalCall, Attach, SafeChain, SoundAt;
    match n
    case Num(_) =>
    case Ref(_) =>
    case Unary(_, v) => ReassociateMeaning(v, env, values);
    case Binary(op, l, r) =>
      ReassociateMeaning(l, env, values);
      MeaningIsSound(l, env, values);
      SoundCopy(Reassociate(l), l, env, values);
      BinaryCongruence(op, l, Reassociate(l), r, r, env, values);
      AttachMeaning(Reassociate(l), op, r, env, values);
    case Call(_, args) => ReassociateAllMeaning(args, env, values);
  }

  lemma {:induction false} ReassociateAllMeaning(ns: seq<Node>, env: Environment, values: Inputs)
    requires forall r :: r in ReferencesOfAll(ns) && r in env ==> Trimmed(env[r].typ.unit)
    requires InferAll(ns, env).Success? && forall k :: 0 <= k < |ns| ==> SafeTree(Values, ns[k], env)
    ensures InferAll(ReassociateAll(ns), env) == InferAll(ns, env)
    ensures Meanings(ReassociateAll(ns), env, values) == Meanings(ns, env, values)
    decreases ns, 0
  {
    hide Infer, Meaning, Reassociate, SafeTree;
    if ns != [] {
      ReassociateMeaning(ns[0], env, values);
      assert forall k :: 0 <= k < |ns| - 1 ==> ns[1..][k] == ns[k + 1];
      ReassociateAllMeaning(ns[1..], env, values);
      assert ReassociateAll(ns)[1..] == ReassociateAll(ns[1..]);
    }
  }

  // ----- exactly when the tree read back types -----

  lemma {:induction false} FailedLeftFails(left: Node, op: BinaryOp, r: Node, env: Environment)
    requires Infer(left, env).Failure?
    ensures Infer(Attach(left, op, r), env).Failure?
    decreases r
  {
    hide InferBinary, Reassociate;
    if r.Binary? && Flattened(op, r.op) {
      FailedLeftFails(left, op, r.left, env);
      FailedLeftFails(Attach(left, op, r.left), r.op, r.right, env);
    }
  }

  lemma InferBinaryNode(op: BinaryOp, a: Node, b: Node, env: Environment)
    ensures Infer(Binary(op, a, b), env) ==
            if Infer(a, env).Failure? then Infer(a, env)
            else if Infer(b, env).Failure? then Infer(b, env)
            else InferBinary(op, Infer(a, env).value, Infer(b, env).value)
  {
  }

  /** Fails, or is a quantity. */
  predicate UnitfulIfTyped(i: Inferred)
  {
    i.Success? ==> WellFormed(i.value) && i.value.typ.unit != ""
  }

  lemma ProductWithQuantity(op: BinaryOp, i: Inference, j: Inference)
    requires (op == Mul || op == Div) && WellFormed(i) && WellFormed(j) && i.typ.unit != ""
    ensures op == Mul || j.typ.unit == "" ==> UnitfulIfTyped(InferBinary(op, i, j))
    ensures op == Mul && j.typ.unit != "" ==> InferBinary(op, i, j).Failure?
  {
    UnitsAreTrimmed(i);
    UnitsAreTrimmed(j);
    hide AreCompatible, TrimSpace, MergeSignatures, FoldConstant;
  }

  lemma ProductWithRatio(op: BinaryOp, j: Inference, k: Inference)
    requires (op == Mul || op == Div) && WellFormed(j) && WellFormed(k) && j.typ.unit == ""
    requires InferBinary(op, j, k).Success?
    ensures InferBinary(op, j, k).value.typ.unit == k.typ.unit && (op == Div ==> k.typ.unit == "")
  {
    UnitsAreTrimmed(j);
    UnitsAreTrimmed(k);
    hide AreCompatible, TrimSpace, MergeSignatures, FoldConstant;
  }

  /** A chain of factors behind a quantity is one, and fails to type if the factors are one
      themselves. */
  lemma {:induction false} QuantityTimes(left: Node, r: Node, env: Environment)
    requires UnitfulIfTyped(Infer(left, env)) && Infer(r, env).Success? && UnitsTrimmed(r, env)
    ensures UnitfulIfTyped(Infer(Attach(left, Mul, r), env))
    ensures Infer(r, env).value.typ.unit != "" ==> Infer(Attach(left, Mul, r), env).Failure?
    decreases r, 3
  {
    hide Infer, InferBinary, WellFormed;
    if r.Binary? && Flattened(Mul, r.op) {
      var a := Attach(left, Mul, r.left);
      InferParts(r.op, r.left, r.right, env);
      InferenceShape(r.left, env);
      InferenceShape(r.right, env);
      QuantityTimes(left, r.left, env);
      if Infer(a, env).Failure? {
        FailedLeftFails(a, r.op, r.right, env);
      } else {
        ProductWithRatio(r.op, Infer(r.left, env).value, Infer(r.right, env).value);
        if r.op == Mul {
          QuantityTimes(a, r.right, env);
        } else {
          FactorTimes(Div, a, r.right, env);
        }
      }
    } else {
      FactorTimes(Mul, left, r, env);
    }
  }

  lemma FactorTimes(op: BinaryOp, left: Node, r: Node, env: Environment)
    requires (op == Mul || op == Div) && UnitfulIfTyped(Infer(left, env)) && Infer(r, env).Success? && UnitsTrimmed(r, env)
    ensures var b := Infer(Binary(op, left, Reassociate(r)), env);
            && (op == Mul || Infer(r, env).value.typ.unit == "" ==> UnitfulIfTyped(b))
            && (op == Mul && Infer(r, env).value.typ.unit != "" ==> b.Failure?)
    decreases r, 2
  {
    hide Infer, InferBinary, WellFormed;
    InferBinaryNode(op, left, Reassociate(r), env);
    ReassociateTypes(r, env);
    InferenceShape(r, env);
    if Infer(left, env).Success? {
      ProductWithQuantity(op, Infer(left, env).value, Infer(r, env).value);
    }
  }

  lemma {:induction false} AttachTypes(left: Node, op: BinaryOp, r: Node, env: Environment)
    requires Infer(Binary(op, left, r), env).Success? && UnitsTrimmed(r, env)
    requires Infer(left, env).Success? && WellFormed(Infer(left, env).value)
    ensures Infer(Attach(left, op, r), env).Success? <==> SafeChain(Typing, Infer(left, env).value, op, r, env)
    ensures Infer(Attach(left, op, r), env).Success? ==> Infer(Attach(left, op, r), env) == Infer(Binary(op, left, r), env)
    decreases r, 4
  {
    hide Infer, InferBinary, WellFormed;
    InferParts(op, left, r, env);
    if r.Binary? && Flattened(op, r.op) {
      InferParts(r.op, r.left, r.right, env);
      InferenceShape(r.left, env);
      InferenceShape(r.right, env);
      var i, j, k := Infer(left, env).value, Infer(r.left, env).value, Infer(r.right, env).value;
      RotationTypes(op, r.op, i, j, k);
      var a := Attach(left, op, r.left);
      if TypesSafely(op, r.op, i, j) {
        BinaryShape(op, i, j);
        InferBinaryNode(op, left, r.left, env);
        AttachTypes(left, op, r.left, env);
        if Infer(a, env).Failure? {
          FailedLeftFails(a, r.op, r.right, env);
        } else {
          InferBinaryNode(r.op, a, r.right, env);
          AttachTypes(a, r.op, r.right, env);
        }
      } else {
        QuantityTimes(left, r.left, env);
        FailedLeftFails(a, r.op, r.right, env);
      }
    } else {
      ReassociateTypes(r, env);
      InferBinaryNode(op, left, Reassociate(r), env);
    }
  }

  lemma {:induction false} ReassociateTypes(n: Node, env: Environment)
    requires Infer(n, env).Success? && UnitsTrimmed(n, env)
    ensures Infer(Reassociate(n), env).Success? <==> SafeTree(Typing, n, env)
    ensures Infer(Reassociate(n), env).Success? ==> Infer(Reassociate(n), env) == Infer(n, env)
    decreases n, 1
  {
    hide InferUnary, InferBinary, InferCall, Attach, SafeChain, WellFormed;
    match n
    case Num(_) =>
    case Ref(_) =>
    case Unary(_, v) => ReassociateTypes(v, env);
    case Binary(op, l, r) =>
      ReassociateTypes(l, env);
      InferenceShape(l, env);
      var left := Reassociate(l);
      if Infer(left, env).Failure? {
        FailedLeftFails(left, op, r, env);
      } else {
        AttachTypes(left, op, r, env);
      }
    case Call(_, args) => ReassociateAllTypes(args, env);
  }

  lemma {:induction false} ReassociateAllTypes(ns: seq<Node>, env: Environment)
    requires forall r :: r in ReferencesOfAll(ns) && r in env ==> Trimmed(env[r].typ.unit)
    requires InferAll(ns, env).Success?
    ensures InferAll(ReassociateAll(ns), env).Success? <==> forall k :: 0 <= k < |ns| ==> SafeTree(Typing, ns[k], env)
    ensures InferAll(ReassociateAll(ns), env).Success? ==> InferAll(ReassociateAll(ns), env) == InferAll(ns, env)
    decreases ns, 0
  {
    hide Infer, Reassociate, SafeTree;
    if ns != [] {
      ReassociateTypes(ns[0], env);
      ReassociateAllTypes(ns[1..], env);
      assert ReassociateAll(ns)[1..] == ReassociateAll(ns[1..]);
      assert forall k :: 0 < k < |ns| ==> ns[k] == ns[1..][k - 1];
      assert forall k :: 0 <= k < |ns| - 1 ==> ns[1..][k] == ns[k + 1];
    }
  }

  // ----- trees that are safe throughout -----

  ghost predicate Dimensionless(n: Node, env: Environment)
  {
    forall r :: r in References(n) && r in env ==> env[r].typ.unit == ""
  }

  predicate Plain(i: Inference)
  {
    i.typ == DIMENSIONLESS || i.typ == TRUTH
  }

  lemma PlainBinary(op: BinaryOp, i: Inference, j: Inference)
    requires Plain(i) && Plain(j) && InferBinary(op, i, j).Success?
    ensures Plain(InferBinary(op, i, j).value)
  {
    assert TrimSpace("") == "";
  }

  lemma PlainCall(fn: string, many: seq<Inference>)
    requires forall k :: 0 <= k < |many| ==> Plain(many[k])
    requires InferCall(fn, many).Success?
    ensures Plain(InferCall(fn, many).value)
  {
    hide AreCompatible, Convert;
    assert TrimSpace("") == "";
  }

  lemma {:induction false} DimensionlessInference(n: Node, env: Environment)
    requires Dimensionless(n, env) && Infer(n, env).Success?
    ensures Plain(Infer(n, env).value)
    decreases n, 1
  {
    hide InferBinary, InferCall;
    match n
    case Num(_) =>
    case Ref(name) => assert name in References(n);
    case Unary(_, v) => DimensionlessInference(v, env);
    case Binary(op, l, r) =>
      DimensionlessInference(l, env);
      DimensionlessInference(r, env);
      PlainBinary(op, Infer(l, env).value, Infer(r, env).value);
    case Call(fn, args) =>
      DimensionlessInferences(args, env);
      PlainCall(fn, InferAll(args, env).value);
  }

  lemma {:induction false} DimensionlessInferences(ns: seq<Node>, env: Environment)
    requires forall r :: r in ReferencesOfAll(ns) && r in env ==> env[r].typ.unit == ""
    requires InferAll(ns, env).Success?
    ensures forall k :: 0 <= k < |ns| ==> Plain(InferAll(ns, env).value[k])
    decreases ns, 0
  {
    hide Infer;
    if ns != [] {
      DimensionlessInference(ns[0], env);
      DimensionlessInferences(ns[1..], env);
      var many, tail := InferAll(ns, env).value, InferAll(ns[1..], env).value;
      assert forall k :: 0 < k < |ns| ==> many[k] == tail[k - 1];
    }
  }

  /** Over dimensionless inputs every pair is safe. */
  lemma {:induction false} DimensionlessIsSafe(n: Node, env: Environment)
    requires Dimensionless(n, env) && Infer(n, env).Success?
    ensures UnitsTrimmed(n, env) && SafeTree(Values, n, env)
    decreases n, 1
  {
    hide InferBinary, InferUnary, InferCall, SafeChain, WellFormed, Plain;
    match n
    case Num(_) =>
    case Ref(_) =>
    case Unary(_, v) => DimensionlessIsSafe(v, env);
    case Binary(op, l, r) =>
      DimensionlessIsSafe(l, env);
      DimensionlessInference(l, env);
      InferenceShape(l, env);
      DimensionlessChain(Infer(l, env).value, op, r, env);
    case Call(_, args) => DimensionlessAreSafe(args, env);
  }

  lemma {:induction false} DimensionlessChain(i: Inference, op: BinaryOp, r: Node, env: Environment)
    requires Plain(i) && WellFormed(i) && Dimensionless(r, env)
    requires Infer(r, env).Success? && InferBinary(op, i, Infer(r, env).value).Success?
    ensures SafeChain(Values, i, op, r, env)
    decreases r, 2
  {
    hide Infer, InferBinary, WellFormed;
    if r.Binary? && Flattened(op, r.op) {
      InferParts(r.op, r.left, r.right, env);
      assert Dimensionless(r.left, env) && Dimensionless(r.right, env);
      DimensionlessIsSafe(r.left, env);
      DimensionlessIsSafe(r.right, env);
      InferenceShape(r.left, env);
      InferenceShape(r.right, env);
      DimensionlessInference(r.left, env);
      var j, k := Infer(r.left, env).value, Infer(r.right, env).value;
      RotationTypes(op, r.op, i, j, k);
      PlainBinary(op, i, j);
      BinaryShape(op, i, j);
      DimensionlessChain(i, op, r.left, env);
      DimensionlessChain(InferBinary(op, i, j).value, r.op, r.right, env);
    } else {
      DimensionlessIsSafe(r, env);
    }
  }

  lemma {:induction false} DimensionlessAreSafe(ns: seq<Node>, env: Environment)
    requires forall r :: r in ReferencesOfAll(ns) && r in env ==> env[r].typ.unit == ""
    requires InferAll(ns, env).Success?
    ensures forall k :: 0 <= k < |ns| ==> SafeTree(Values, ns[k], env)
    ensures forall r :: r in ReferencesOfAll(ns) && r in env ==> Trimmed(env[r].typ.unit)
    decreases ns, 0
  {
    hide Infer, SafeTree;
    if ns != [] {
      DimensionlessIsSafe(ns[0], env);
      DimensionlessAreSafe(ns[1..], env);
      assert forall k :: 0 < k < |ns| ==> ns[k] == ns[1..][k - 1];
    }
  }

  // ----- main results -----

  /** A well-typed tree as the parser builds them is printed unambiguously. */
  lemma {:induction false} TypedIsPrintable(n: Node, env: Environment)
    requires Lexical(n) && Infer(n, env).Success?
    ensures Printable(n)
    ensures IsNegation(n) || (n.Binary? && Level(n.op) <= 4) ==> Infer(n, env).value.typ == TRUTH
    decreases n, 1
  {
    hide InferCall, CompatibleUnit, ProductUnit, QuotientUnit;
    match n
    case Num(_) =>
    case Ref(_) =>
    case Unary(_, v) => TypedIsPrintable(v, env);
    case Binary(op, l, r) =>
      TypedIsPrintable(l, env);
      TypedIsPrintable(r, env);
      if Level(op) >= 4 {
        NumericOperands(op, Infer(l, env).value, Infer(r, env).value);
      }
    case Call(_, args) => TypedArePrintable(args, env);
  }

  lemma NumericOperands(op: BinaryOp, i: Inference, j: Inference)
    requires Level(op) >= 4 && InferBinary(op, i, j).Success?
    ensures i.typ.kind == Number && j.typ.kind == Number
  {
  }

  lemma {:induction false} TypedArePrintable(ns: seq<Node>, env: Environment)
    requires forall k :: 0 <= k < |ns| ==> Lexical(ns[k])
    requires InferAll(ns, env).Success?
    ensures forall k :: 0 <= k < |ns| ==> Printable(ns[k])
    decreases ns, 0
  {
    hide Infer;
    if ns != [] {
      TypedIsPrintable(ns[0], env);
      TypedArePrintable(ns[1..], env);
      assert forall k :: 0 < k < |ns| ==> ns[k] == ns[1..][k - 1];
    }
  }

  /** The canonical reparse keeps type, unit, signature, constant and value, Missing and
      failures included, when every pair that the print flattens is safe; a tree in which no
      chain leans right is read back as it is. */
  lemma CanonicalKeepsMeaning(n: Node, env: Environment, types: map<Node, Inference>,
                              types': map<Node, Inference>, values: Inputs)
    requires Lexical(n) && Infer(n, env).Success?
    requires LeftLeaning(n) || (UnitsTrimmed(n, env) && SafeTree(Values, n, env))
    ensures ParseFormula(Canonical(n)).Tree?
    ensures var m := ParseFormula(Canonical(n)).root;
            && Infer(m, env) == Infer(n, env)
            && (Typed(n, env, types) && Typed(m, env, types') ==>
                  Evaluate(m, types', values) == Evaluate(n, types, values))
  {
    TypedIsPrintable(n, env);
    CanonicalRoundTrip(n);
    if !LeftLeaning(n) {
      ReassociateMeaning(n, env, values);
    }
    var m := Reassociate(n);
    if Typed(n, env, types) && Typed(m, env, types') {
      EvaluateIsMeaning(n, env, types, values);
      EvaluateIsMeaning(m, env, types', values);
    }
  }

  /** The canonical text of an accepted formula is accepted exactly when every pair that the
      print flattens types safely, and then has the same type, signature and constant. */
  lemma CanonicalTypesExactly(n: Node, env: Environment)
    requires Lexical(n) && Infer(n, env).Success? && UnitsTrimmed(n, env)
    ensures ParseFormula(Canonical(n)).Tree?
    ensures var m := ParseFormula(Canonical(n)).root;
            && (Infer(m, env).Success? <==> SafeTree(Typing, n, env))
            && (Infer(m, env).Success? ==> Infer(m, env) == Infer(n, env))
  {
    TypedIsPrintable(n, env);
    CanonicalRoundTrip(n);
    ReassociateTypes(n, env);
  }

  /** With units the canonical text may not even type: a duration times a ratio. */
  lemma UnitsCanBreakTyping()
    ensures var env := map["A" := Binding(StaticType(Number, "s"), "")];
            var a := Ref("A");
            var n := Binary(Mul, a, Binary(Div, a, a));
            Infer(n, env).Success? && Infer(Reassociate(n), env).Failure?
  {
    assert Trimmed("s");
    TrimmedIsUnchanged("s");
    var env := map["A" := Binding(StaticType(Number, "s"), "")];
    var a := Ref("A");
    var ratio := Binary(Div, a, a);
    assert Infer(a, env) == Success(Inference(StaticType(Number, "s"), "", None));
    assert Infer(ratio, env) == Success(Inference(DIMENSIONLESS, "", None));
    assert Reassociate(Binary(Mul, a, ratio)) == Binary(Div, Binary(Mul, a, a), a);
    assert Infer(Binary(Mul, a, a), env) == Failure(UnitfulProduct);
  }

  lemma SecondsAndMilliseconds()
    ensures TrimSpace("s") == "s" && TrimSpace("ms") == "ms" && "ms" != "s"
    ensures AreCompatible("ms", "s") && AreCompatible("s", "ms")
    ensures Convert(1.0, "s", "ms") == 1000.0 && Convert(0.0, "s", "ms") == 0.0
  {
    assert Trimmed("s") && Trimmed("ms");
    TrimmedIsUnchanged("s");
    TrimmedIsUnchanged("ms");
    assert |"ms"| != |"s"|;
  }

  /** Or may change the unit a constant is read in. */
  lemma UnitsCanChangeMeaning()
    ensures var env := map["A" := Binding(StaticType(Number, "ms"), ""), "B" := Binding(StaticType(Number, "s"), "")];
            var values := map["A" := Numeric(StaticType(Number, "ms"), 0.0), "B" := Numeric(StaticType(Number, "s"), 0.0)];
            var n := Binary(Add, Ref("A"), Binary(Add, Num(1.0), Ref("B")));
            && Meaning(n, env, values) == Success(Numeric(StaticType(Number, "ms"), 1000.0))
            && Meaning(Reassociate(n), env, values) == Success(Numeric(StaticType(Number, "ms"), 1.0))
  {
    hide TrimSpace, AreCompatible, Convert;
    SecondsAndMilliseconds();
    var env := map["A" := Binding(StaticType(Number, "ms"), ""), "B" := Binding(StaticType(Number, "s"), "")];
    var values := map["A" := Numeric(StaticType(Number, "ms"), 0.0), "B" := Numeric(StaticType(Number, "s"), 0.0)];
    assert TrimSpace("") == "" by { TrimmedIsUnchanged(""); }
    var one, a, b := Num(1.0), Ref("A"), Ref("B");
    InputZero("A", "ms", values);
    InputZero("B", "s", values);
    assert Meaning(a, env, values) == Success(Numeric(StaticType(Number, "ms"), 0.0));
    assert Meaning(b, env, values) == Success(Numeric(StaticType(Number, "s"), 0.0));
    assert Infer(Binary(Add, one, b), env) == Success(Inference(StaticType(Number, "s"), "", None));
    assert Meaning(Binary(Add, one, b), env, values) == Success(Numeric(StaticType(Number, "s"), 1.0));
    assert Infer(Binary(Add, a, one), env) == Success(Inference(StaticType(Number, "ms"), "", None));
    assert Meaning(Binary(Add, a, one), env, values) == Success(Numeric(StaticType(Number, "ms"), 1.0));
    assert Reassociate(Binary(Add, a, Binary(Add, one, b))) == Binary(Add, Binary(Add, a, one), b);
  }

  /** The value half of safety is exact for one rotation but not for a whole tree, where the
      difference can be hidden: here by a factor of zero. */
  lemma UnsafePairCanBeHidden()
    ensures var env := map["A" := Binding(StaticType(Number, "ms"), ""), "B" := Binding(StaticType(Number, "s"), "")];
            var values := map["A" := Numeric(StaticType(Number, "ms"), 0.0), "B" := Numeric(StaticType(Number, "s"), 0.0)];
            var n := Binary(Mul, Num(0.0), Binary(Add, Ref("A"), Binary(Add, Num(1.0), Ref("B"))));
            SameMeaning(Reassociate(n), n, env, values) && !SafeTree(Values, n, env)
  {
    SecondsAndMilliseconds();
    UnitsCanChangeMeaning();
    var env := map["A" := Binding(StaticType(Number, "ms"), ""), "B" := Binding(StaticType(Number, "s"), "")];
    var values := map["A" := Numeric(StaticType(Number, "ms"), 0.0), "B" := Numeric(StaticType(Number, "s"), 0.0)];
    var sum := Binary(Add, Ref("A"), Binary(Add, Num(1.0), Ref("B")));
    assert Trimmed("s") && Trimmed("ms");
    hide Infer, Meaning, Trimmed, TrimSpace, AreCompatible, Convert, Reassociate, SafeTree;
    MeaningNeedsTypes(sum, env, values);
    MeaningNeedsTypes(Reassociate(sum), env, values);
    ReassociateTypes(sum, env);
    TimesZero(Reassociate(sum), sum, env, values);
    DifferenceIsUnsafe(sum, env, values);
    FactorIsKept(Values, Num(0.0), sum, env);
  }

  lemma DifferenceIsUnsafe(n: Node, env: Environment, values: Inputs)
    requires Infer(n, env).Success? && UnitsTrimmed(n, env)
    requires Meaning(Reassociate(n), env, values) != Meaning(n, env, values)
    ensures !SafeTree(Values, n, env)
  {
    if SafeTree(Values, n, env) {
      ReassociateMeaning(n, env, values);
    }
  }

  lemma FactorIsKept(a: Aspect, x: Node, n: Node, env: Environment)
    requires x.Num? && n.Binary? && Level(n.op) != 6
    ensures Reassociate(Binary(Mul, x, n)) == Binary(Mul, x, Reassociate(n))
    ensures SafeTree(a, Binary(Mul, x, n), env) ==> SafeTree(a, n, env)
  {
    hide Infer;
    if SafeTree(a, Binary(Mul, x, n), env) {
      assert SafeChain(a, Infer(x, env).value, Mul, n, env);
    }
  }

  lemma MeaningNeedsTypes(n: Node, env: Environment, values: Inputs)
    requires Meaning(n, env, values).Success?
    ensures Infer(n, env).Success?
  {
    hide Infer;
  }

  lemma TimesZero(a: Node, b: Node, env: Environment, values: Inputs)
    requires Infer(a, env).Success? && Infer(a, env) == Infer(b, env) && Infer(a, env).value.typ.kind == Number
    requires IsValue(Meaning(a, env, values)) && IsValue(Meaning(b, env, values))
    requires Meaning(a, env, values).value.typ.kind == Meaning(b, env, values).value.typ.kind == Number
    ensures SameMeaning(Binary(Mul, Num(0.0), a), Binary(Mul, Num(0.0), b), env, values)
  {
    var zero := Num(0.0);
    InferBinaryNode(Mul, zero, a, env);
    InferBinaryNode(Mul, zero, b, env);
    assert Infer(zero, env) == Success(Inference(DIMENSIONLESS, "", Some(0.0)));
    assert forall x :: Product(0.0, x) == 0.0;
  }

  lemma InputZero(name: string, unit: string, values: Inputs)
    requires name in values && unit != "" && values[name] == Numeric(StaticType(Number, unit), 0.0)
    ensures EvalInput(name, StaticType(Number, unit), values) == Success(values[name])
  {
    hide FamilyOf, Convert;
    ConvertInverts(0.0, unit, unit);
  }
}
