/** What the value of a formula depends on: exactly when it is Missing, which inputs it
    accepts, and that neither input units nor the canonical reparse change it. */
module FormulaMeaning {
  import opened FormulaSyntax
  import opened FormulaRoundTrip
  import opened FormulaTyping
  import opened FormulaEvaluation
  import opened FormulaSoundness
  import opened Results
  import opened Units

  // ----- Missing -----

  /** The divisors of a formula, at any depth. */
  function Divisors(n: Node): seq<Node>
  {
    match n
    case Num(_) => []
    case Ref(_) => []
    case Unary(_, v) => Divisors(v)
    case Binary(op, l, r) => Divisors(l) + Divisors(r) + (if op == Div then [r] else [])
    case Call(_, args) => DivisorsOfAll(args)
  }

  function DivisorsOfAll(ns: seq<Node>): seq<Node>
  {
    if ns == [] then [] else Divisors(ns[0]) + DivisorsOfAll(ns[1..])
  }

  /** An input without a usable value. */
  predicate Unusable(v: Value)
  {
    v.missing || (v.typ.kind != Bool && !v.finite)
  }

  predicate IsZero(r: Evaluated)
  {
    r.Success? && !r.value.missing && r.value.number == 0.0
  }

  predicate ReadsUnusable(names: seq<string>, values: Inputs)
  {
    exists k :: 0 <= k < |names| && names[k] in values && Unusable(values[names[k]])
  }

  predicate DividesByZero(divisors: seq<Node>, types: map<Node, Inference>, values: Inputs)
  {
    exists k :: 0 <= k < |divisors| && IsZero(Evaluate(divisors[k], types, values))
  }

  lemma ReadsUnusableSplits(a: seq<string>, b: seq<string>, values: Inputs)
    ensures ReadsUnusable(a + b, values) <==> ReadsUnusable(a, values) || ReadsUnusable(b, values)
  {
    var ab := a + b;
    if ReadsUnusable(a, values) {
      var k :| 0 <= k < |a| && a[k] in values && Unusable(values[a[k]]);
      assert ab[k] == a[k];
    }
    if ReadsUnusable(b, values) {
      var k :| 0 <= k < |b| && b[k] in values && Unusable(values[b[k]]);
      assert ab[|a| + k] == b[k];
    }
  }

  lemma DividesByZeroSplits(a: seq<Node>, b: seq<Node>, types: map<Node, Inference>, values: Inputs)
    ensures DividesByZero(a + b, types, values) <==>
            DividesByZero(a, types, values) || DividesByZero(b, types, values)
  {
    hide Evaluate;
    var ab := a + b;
    if DividesByZero(a, types, values) {
      var k :| 0 <= k < |a| && IsZero(Evaluate(a[k], types, values));
      assert ab[k] == a[k];
    }
    if DividesByZero(b, types, values) {
      var k :| 0 <= k < |b| && IsZero(Evaluate(b[k], types, values));
      assert ab[|a| + k] == b[k];
    }
  }

  lemma BinaryMissing(op: BinaryOp, typ: StaticType, l: Value, r: Value)
    requires EvalBinary(op, typ, l, r).Success?
    ensures EvalBinary(op, typ, l, r).value.missing <==>
            l.missing || r.missing || (op == Div && r.number == 0.0)
  {
    hide AreCompatible, Convert;
    ConvertKeepsOrder(r.number, 0.0, r.typ.unit, l.typ.unit);
  }

  lemma CallMissing(fn: string, typ: StaticType, args: seq<Value>)
    requires EvalCall(fn, typ, args).Success?
    ensures EvalCall(fn, typ, args).value.missing <==> AnyMissing(args)
  {
    hide AreCompatible, Convert;
  }

  /** Missing is strict and exact. A successful evaluation is Missing exactly when some
      referenced input has no usable value or some divisor evaluates to zero, wherever it
      stands, AND and OR included. */
  lemma {:induction false} MissingIsExact(n: Node, types: map<Node, Inference>, values: Inputs)
    requires Evaluate(n, types, values).Success?
    ensures Evaluate(n, types, values).value.missing <==>
            ReadsUnusable(References(n), values) || DividesByZero(Divisors(n), types, values)
    decreases n, 1
  {
    hide EvalBinary, EvalCall, AreCompatible, Convert, DividesByZero, ReadsUnusable;
    match n
    case Num(_) =>
      assert !ReadsUnusable([], values) && !DividesByZero([], types, values) by { NothingRead(types, values); }
    case Ref(name) =>
      NothingRead(types, values);
      OneRead(name, values);
    case Unary(op, v) => MissingIsExact(v, types, values);
    case Binary(op, l, r) =>
      MissingIsExact(l, types, values);
      MissingIsExact(r, types, values);
      var x, y := Evaluate(l, types, values).value, Evaluate(r, types, values).value;
      BinaryMissing(op, types[n].typ, x, y);
      ReadsUnusableSplits(References(l), References(r), values);
      DividesByZeroSplits(Divisors(l), Divisors(r), types, values);
      DividesByZeroSplits(Divisors(l) + Divisors(r), if op == Div then [r] else [], types, values);
      NothingRead(types, values);
      OneDivisor(r, types, values);
    case Call(fn, args) =>
      MissingIsExactAll(args, types, values);
      CallMissing(fn, types[n].typ, EvaluateAll(args, types, values).value);
  }

  lemma NothingRead(types: map<Node, Inference>, values: Inputs)
    ensures !ReadsUnusable([], values) && !DividesByZero([], types, values)
  {
  }

  lemma OneRead(name: string, values: Inputs)
    ensures ReadsUnusable([name], values) <==> name in values && Unusable(values[name])
  {
    assert [name][0] == name;
  }

  lemma OneDivisor(r: Node, types: map<Node, Inference>, values: Inputs)
    ensures DividesByZero([r], types, values) <==> IsZero(Evaluate(r, types, values))
  {
    hide Evaluate;
    assert [r][0] == r;
  }

  lemma {:induction false} MissingIsExactAll(ns: seq<Node>, types: map<Node, Inference>, values: Inputs)
    requires EvaluateAll(ns, types, values).Success?
    ensures AnyMissing(EvaluateAll(ns, types, values).value) <==>
            ReadsUnusable(ReferencesOfAll(ns), values) || DividesByZero(DivisorsOfAll(ns), types, values)
    decreases ns, 0
  {
    hide Evaluate, DividesByZero, ReadsUnusable;
    if ns == [] {
      NothingRead(types, values);
    } else {
      MissingIsExact(ns[0], types, values);
      MissingIsExactAll(ns[1..], types, values);
      ReadsUnusableSplits(References(ns[0]), ReferencesOfAll(ns[1..]), values);
      DividesByZeroSplits(Divisors(ns[0]), DivisorsOfAll(ns[1..]), types, values);
      var first, tail := Evaluate(ns[0], types, values).value, EvaluateAll(ns[1..], types, values).value;
      var all := [first] + tail;
      assert EvaluateAll(ns, types, values).value == all;
      if AnyMissing(tail) {
        var k :| 0 <= k < |tail| && tail[k].missing;
        assert all[k + 1].missing;
      }
      if first.missing { assert all[0].missing; }
    }
  }

  // ----- accepted inputs -----

  /** The evaluator refuses every input that type soundness does not allow. */
  lemma {:induction false} SuccessMeansInputsMatch(n: Node, env: Environment, types: map<Node, Inference>, values: Inputs)
    requires Typed(n, env, types) && Evaluate(n, types, values).Success?
    ensures InputsMatch(n, env, values)
    decreases n, 1
  {
    hide InferUnary, InferBinary, InferCall, EvalUnary, EvalBinary, EvalCall, FamilyOf, Convert;
    match n
    case Num(_) =>
    case Ref(name) => assert Infer(n, env) == Success(types[n]);
    case Unary(_, v) => SuccessMeansInputsMatch(v, env, types, values);
    case Binary(_, l, r) =>
      SuccessMeansInputsMatch(l, env, types, values);
      SuccessMeansInputsMatch(r, env, types, values);
    case Call(_, args) => SuccessMeansInputsMatchAll(args, env, types, values);
  }

  lemma {:induction false} SuccessMeansInputsMatchAll(ns: seq<Node>, env: Environment, types: map<Node, Inference>,
                                                     values: Inputs)
    requires Sound(types, env) && forall k :: 0 <= k < |ns| ==> Records(types, ns[k])
    requires EvaluateAll(ns, types, values).Success?
    ensures forall r :: r in ReferencesOfAll(ns) && r in env ==> r in values && InputMatches(values[r], env[r].typ)
    decreases ns, 0
  {
    hide Evaluate, InputMatches;
    if ns != [] {
      SuccessMeansInputsMatch(ns[0], env, types, values);
      assert forall k :: 0 <= k < |ns| - 1 ==> ns[1..][k] == ns[k + 1];
      SuccessMeansInputsMatchAll(ns[1..], env, types, values);
    }
  }

  // ----- input units -----

  /** The same quantity in another unit of the same family. */
  predicate Reexpressed(a: Value, b: Value)
  {
    || a == b
    || (a.typ.kind == Number && AreCompatible(a.typ.unit, b.typ.unit)
        && b == a.(typ := StaticType(Number, b.typ.unit), number := Convert(a.number, a.typ.unit, b.typ.unit)))
  }

  lemma ReexpressedInput(name: string, typ: StaticType, v1: Inputs, v2: Inputs)
    requires name in v1 && name in v2 && Reexpressed(v1[name], v2[name])
    ensures EvalInput(name, typ, v1) == EvalInput(name, typ, v2)
  {
    hide FamilyOf, Convert;
    var a, b := v1[name].typ.unit, v2[name].typ.unit;
    if v1[name] != v2[name] {
      CompatibleIsEquivalence(a, b, typ.unit);
      CompatibleIsEquivalence(b, a, typ.unit);
      if AreCompatible(b, typ.unit) {
        ConvertComposes(v1[name].number, a, b, typ.unit);
      }
    }
  }

  /** Re-expressing inputs in compatible units leaves every evaluation, failures included,
      unchanged. */
  lemma {:induction false} UnitInvariance(n: Node, types: map<Node, Inference>, v1: Inputs, v2: Inputs)
    requires forall r :: r in References(n) ==> r in v1 && r in v2 && Reexpressed(v1[r], v2[r])
    ensures Evaluate(n, types, v1) == Evaluate(n, types, v2)
    decreases n, 1
  {
    hide EvalInput, EvalUnary, EvalBinary, EvalCall, Reexpressed;
    match n
    case Num(_) =>
    case Ref(name) =>
      assert name in References(n);
      if n in types { ReexpressedInput(name, types[n].typ, v1, v2); }
    case Unary(_, v) => UnitInvariance(v, types, v1, v2);
    case Binary(_, l, r) =>
      UnitInvariance(l, types, v1, v2);
      UnitInvariance(r, types, v1, v2);
    case Call(_, args) => UnitInvarianceAll(args, types, v1, v2);
  }

  lemma {:induction false} UnitInvarianceAll(ns: seq<Node>, types: map<Node, Inference>, v1: Inputs, v2: Inputs)
    requires forall r :: r in ReferencesOfAll(ns) ==> r in v1 && r in v2 && Reexpressed(v1[r], v2[r])
    ensures EvaluateAll(ns, types, v1) == EvaluateAll(ns, types, v2)
    decreases ns, 0
  {
    hide Evaluate, Reexpressed;
    if ns != [] {
      UnitInvariance(ns[0], types, v1, v2);
      UnitInvarianceAll(ns[1..], types, v1, v2);
    }
  }
}
