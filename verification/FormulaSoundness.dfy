/** Evaluation agrees with inference: result type, folded constants, Missing, and
    independence from the unit an input is expressed in. */
module FormulaSoundness {
  import opened FormulaSyntax
  import opened FormulaTyping
  import opened FormulaEvaluation
  import opened Results
  import opened Strings
  import opened Units

  /** The inferences recorded for `n` under `env`. */
  ghost predicate Typed(n: Node, env: Environment, types: map<Node, Inference>)
  {
    Sound(types, env) && Records(types, n)
  }

  /** An input the evaluator accepts for a binding of this type. */
  predicate InputMatches(v: Value, typ: StaticType)
  {
    && v.typ.kind == typ.kind
    && (typ.kind == Bool ==> v.typ.unit == "")
    && (typ.kind == Number ==>
          || v.missing || !v.finite
          || (if typ.unit == "" then v.typ.unit == "" else AreCompatible(v.typ.unit, typ.unit)))
  }

  ghost predicate InputsMatch(n: Node, env: Environment, values: Inputs)
  {
    forall r :: r in References(n) && r in env ==> r in values && InputMatches(values[r], env[r].typ)
  }

  ghost predicate UnitsTrimmed(n: Node, env: Environment)
  {
    forall r :: r in References(n) && r in env ==> Trimmed(env[r].typ.unit)
  }

  /** What every inference looks like: a constant is dimensionless and belongs to no series. */
  predicate WellFormed(i: Inference)
  {
    && i.typ.Valid() && Trimmed(i.typ.unit)
    && (i.constant.Some? ==> i.typ == DIMENSIONLESS && i.signature == "")
  }

  /** A value of the inferred type, equal to the folded constant if there is one. */
  predicate HasType(v: Value, i: Inference)
  {
    && v.typ == i.typ
    && (i.constant.Some? ==> !v.missing && v.number == i.constant.value)
  }

  lemma UnarySound(op: UnaryOp, i: Inference, v: Value)
    requires WellFormed(i) && HasType(v, i) && InferUnary(op, i).Success?
    ensures WellFormed(InferUnary(op, i).value)
    ensures var r := EvalUnary(op, InferUnary(op, i).value.typ, v);
            r.Success? && HasType(r.value, InferUnary(op, i).value)
  {
  }

  lemma CompatibleUnitShape(left: Inference, right: Inference)
    requires WellFormed(left) && WellFormed(right) && CompatibleUnit(left, right).Success?
    ensures left.typ.kind == Number && right.typ.kind == Number
    ensures var u := CompatibleUnit(left, right).value;
            && Trimmed(u)
            && (left.typ.unit == "" || left.typ.unit == u || AreCompatible(left.typ.unit, u))
            && (right.typ.unit == "" || right.typ.unit == u || AreCompatible(right.typ.unit, u))
            && (u == "" ==> left.typ.unit == "" && right.typ.unit == "")
            && (left.typ.unit == "" && right.typ.unit == "" ==> u == "")
  {
    TrimmedIsUnchanged(left.typ.unit);
    TrimmedIsUnchanged(right.typ.unit);
    CompatibleIsEquivalence(left.typ.unit, right.typ.unit, left.typ.unit);
  }

  lemma BinaryShape(op: BinaryOp, left: Inference, right: Inference)
    requires WellFormed(left) && WellFormed(right) && InferBinary(op, left, right).Success?
    ensures WellFormed(InferBinary(op, left, right).value)
  {
    hide AreCompatible;
    TrimmedIsUnchanged(left.typ.unit);
    TrimmedIsUnchanged(right.typ.unit);
    if op in {Add, Sub} || IsComparison(op) {
      CompatibleUnitShape(left, right);
    }
  }

  lemma BinarySound(op: BinaryOp, left: Inference, right: Inference, l: Value, r: Value)
    requires WellFormed(left) && WellFormed(right) && InferBinary(op, left, right).Success?
    requires HasType(l, left) && HasType(r, right)
    ensures var i := InferBinary(op, left, right).value;
            var v := EvalBinary(op, i.typ, l, r);
            v.Success? && HasType(v.value, i)
  {
    hide AreCompatible, Convert, TrimSpace;
    TrimmedIsUnchanged(left.typ.unit);
    TrimmedIsUnchanged(right.typ.unit);
    if op in {Add, Sub} || IsComparison(op) {
      CompatibleUnitShape(left, right);
    }
    CompatibleIsEquivalence(left.typ.unit, right.typ.unit, left.typ.unit);
    ConvertKeepsOrder(r.number, 0.0, right.typ.unit, left.typ.unit);
  }

  lemma ExtremumSound(fn: string, a: Inference, b: Inference, x: Value, y: Value)
    requires fn == "min" || fn == "max"
    requires WellFormed(a) && WellFormed(b) && InferExtremum(fn, a, b).Success?
    requires HasType(x, a) && HasType(y, b)
    ensures var i := InferExtremum(fn, a, b).value;
            var v := EvalCall(fn, i.typ, [x, y]);
            WellFormed(i) && v.Success? && HasType(v.value, i)
  {
    hide AreCompatible, Convert, CompatibleUnit;
    CompatibleUnitShape(a, b);
    assert AnyMissing([x, y]) <==> x.missing || y.missing by {
      assert [x, y][0] == x && [x, y][1] == y;
    }
  }

  lemma ClampSound(a: Inference, b: Inference, c: Inference, x: Value, y: Value, z: Value)
    requires WellFormed(a) && WellFormed(b) && WellFormed(c) && InferClamp(a, b, c).Success?
    requires HasType(x, a) && HasType(y, b) && HasType(z, c)
    ensures var i := InferClamp(a, b, c).value;
            var v := EvalCall("clamp", i.typ, [x, y, z]);
            && WellFormed(i) && i.constant.None?
            && match v case Success(w) => HasType(w, i) case Failure(e) => e == LowAboveHigh
  {
    hide AreCompatible, Convert, CompatibleUnit;
    assert AnyMissing([x, y, z]) <==> x.missing || y.missing || z.missing by {
      assert [x, y, z][0] == x && [x, y, z][1] == y && [x, y, z][2] == z;
    }
    var first := CompatibleUnit(a, b).value;
    CompatibleUnitShape(a, b);
    var merged := Inference(StaticType(Number, first), "", None);
    CompatibleUnitShape(merged, c);
    var u := CompatibleUnit(merged, c).value;
    MergedUnit(first, c);
    CompatibleIsEquivalence(a.typ.unit, first, u);
    CompatibleIsEquivalence(b.typ.unit, first, u);
  }

  /** With no constant on the left, the left unit is kept. */
  lemma MergedUnit(u: string, c: Inference)
    requires Trimmed(u) && WellFormed(c)
    requires CompatibleUnit(Inference(StaticType(Number, u), "", None), c).Success?
    ensures CompatibleUnit(Inference(StaticType(Number, u), "", None), c).value == u
  {
    hide AreCompatible;
    TrimmedIsUnchanged(u);
    TrimmedIsUnchanged(c.typ.unit);
  }

  lemma CallShape(fn: string, many: seq<Inference>)
    requires forall k :: 0 <= k < |many| ==> WellFormed(many[k])
    requires InferCall(fn, many).Success?
    ensures WellFormed(InferCall(fn, many).value)
    ensures InferCall(fn, many).value.constant.Some? ==>
              fn != "clamp" && forall k :: 0 <= k < |many| ==> many[k].constant.Some?
  {
    hide AreCompatible, Convert, CompatibleUnit;
    if fn == "min" || fn == "max" {
      CompatibleUnitShape(many[0], many[1]);
    } else if fn == "clamp" {
      CompatibleUnitShape(many[0], many[1]);
      var merged := Inference(StaticType(Number, CompatibleUnit(many[0], many[1]).value), "", None);
      CompatibleUnitShape(merged, many[2]);
    }
  }

  lemma CallSound(fn: string, many: seq<Inference>, args: seq<Value>)
    requires |args| == |many|
    requires forall k :: 0 <= k < |many| ==> WellFormed(many[k]) && HasType(args[k], many[k])
    requires InferCall(fn, many).Success?
    ensures var i := InferCall(fn, many).value;
            match EvalCall(fn, i.typ, args)
            case Success(v) => HasType(v, i)
            case Failure(e) => e == LowAboveHigh && i.constant.None?
  {
    hide AreCompatible, Convert, CompatibleUnit;
    if fn == "min" || fn == "max" {
      ExtremumSound(fn, many[0], many[1], args[0], args[1]);
      assert args == [args[0], args[1]];
    } else if fn == "clamp" {
      ClampSound(many[0], many[1], many[2], args[0], args[1], args[2]);
      assert args == [args[0], args[1], args[2]];
    }
  }

  lemma {:induction false} InferenceShape(n: Node, env: Environment)
    requires UnitsTrimmed(n, env) && Infer(n, env).Success?
    ensures WellFormed(Infer(n, env).value)
    decreases n, 1
  {
    hide InferUnary, InferBinary, InferCall;
    match n
    case Num(_) =>
    case Ref(name) => assert name in References(n);
    case Unary(op, v) =>
      InferenceShape(v, env);
      UnarySound(op, Infer(v, env).value, AnyOf(Infer(v, env).value));
    case Binary(op, l, r) =>
      InferenceShape(l, env);
      InferenceShape(r, env);
      BinaryShape(op, Infer(l, env).value, Infer(r, env).value);
    case Call(fn, args) =>
      InferenceShapes(args, env);
      CallShape(fn, InferAll(args, env).value);
  }

  /** Some value of an inferred type. */
  function AnyOf(i: Inference): (v: Value)
    ensures HasType(v, i)
  {
    Numeric(i.typ, if i.constant.Some? then i.constant.value else 0.0)
  }

  lemma {:induction false} InferenceShapes(ns: seq<Node>, env: Environment)
    requires forall r :: r in ReferencesOfAll(ns) && r in env ==> Trimmed(env[r].typ.unit)
    requires InferAll(ns, env).Success?
    ensures forall k :: 0 <= k < |ns| ==> WellFormed(InferAll(ns, env).value[k])
    decreases ns, 0
  {
    if ns != [] {
      InferenceShape(ns[0], env);
      InferenceShapes(ns[1..], env);
      var many, tail := InferAll(ns, env).value, InferAll(ns[1..], env).value;
      forall k | 0 <= k < |ns| ensures WellFormed(many[k]) {
        if k > 0 { assert many[k] == tail[k - 1]; }
      }
    }
  }

  /** Type soundness. An accepted formula over matching inputs evaluates to a value of
      exactly the inferred kind and unit; it can only fail on a clamp whose bounds cross.
      A folded constant is dimensionless, belongs to no series and is the value. */
  lemma {:induction false} TypeSoundness(n: Node, env: Environment, types: map<Node, Inference>, values: Inputs)
    requires Typed(n, env, types)
    requires UnitsTrimmed(n, env) && InputsMatch(n, env, values)
    ensures match Evaluate(n, types, values)
            case Success(v) => HasType(v, types[n])
            case Failure(e) => e == LowAboveHigh && types[n].constant.None?
    ensures WellFormed(types[n]) && Infer(n, env) == Success(types[n])
    decreases n, 1
  {
    hide InferUnary, InferBinary, InferCall, EvalUnary, EvalBinary, EvalCall;
    assert Infer(n, env) == Success(types[n]);
    InferenceShape(n, env);
    match n
    case Num(_) =>
    case Ref(name) =>
      assert name in References(n);
      InputSound(name, types[n].typ, values);
    case Unary(op, v) =>
      TypeSoundness(v, env, types, values);
      var x := Evaluate(v, types, values);
      if x.Success? {
        UnarySound(op, types[v], x.value);
      } else {
        UnaryConstant(op, types[v]);
      }
    case Binary(op, l, r) =>
      TypeSoundness(l, env, types, values);
      TypeSoundness(r, env, types, values);
      BinaryConstant(op, types[l], types[r]);
      var x, y := Evaluate(l, types, values), Evaluate(r, types, values);
      if x.Success? && y.Success? {
        BinarySound(op, types[l], types[r], x.value, y.value);
      }
    case Call(fn, args) =>
      TypeSoundnessAll(args, env, types, values);
      InferenceShapes(args, env);
      CallShape(fn, InferAll(args, env).value);
      var xs := EvaluateAll(args, types, values);
      if xs.Success? {
        CallSound(fn, InferAll(args, env).value, xs.value);
      }
  }

  lemma InputSound(name: string, typ: StaticType, values: Inputs)
    requires name in values && InputMatches(values[name], typ) && typ.Valid()
    ensures EvalInput(name, typ, values).Success? && EvalInput(name, typ, values).value.typ == typ
  {
    hide FamilyOf, Convert;
  }

  lemma UnaryConstant(op: UnaryOp, i: Inference)
    requires InferUnary(op, i).Success? && i.constant.None?
    ensures InferUnary(op, i).value.constant.None?
  {
  }

  lemma BinaryConstant(op: BinaryOp, left: Inference, right: Inference)
    requires InferBinary(op, left, right).Success?
    ensures InferBinary(op, left, right).value.constant.Some? ==> left.constant.Some? && right.constant.Some?
  {
    hide CompatibleUnit, ProductUnit, QuotientUnit;
  }

  /** Type soundness for an argument list. */
  ghost predicate ListSound(r: Result<seq<Value>, EvalError>, many: seq<Inference>)
  {
    match r
    case Success(vs) => |vs| == |many| && forall k :: 0 <= k < |vs| ==> HasType(vs[k], many[k])
    case Failure(e) => e == LowAboveHigh && exists k :: 0 <= k < |many| && many[k].constant.None?
  }

  lemma ListSoundCons(first: Evaluated, i: Inference, others: Result<seq<Value>, EvalError>, tail: seq<Inference>)
    requires match first case Success(v) => HasType(v, i) case Failure(e) => e == LowAboveHigh && i.constant.None?
    requires ListSound(others, tail)
    ensures ListSound(if first.Failure? then Failure(first.error)
                      else if others.Failure? then others
                      else Success([first.value] + others.value),
                      [i] + tail)
  {
    var many := [i] + tail;
    if first.Failure? {
      assert many[0].constant.None?;
    } else if others.Failure? {
      var k :| 0 <= k < |tail| && tail[k].constant.None?;
      assert many[k + 1].constant.None?;
    }
  }

  lemma {:induction false} TypeSoundnessAll(ns: seq<Node>, env: Environment, types: map<Node, Inference>, values: Inputs)
    requires Sound(types, env) && forall k :: 0 <= k < |ns| ==> Records(types, ns[k])
    requires forall r :: r in ReferencesOfAll(ns) && r in env ==> Trimmed(env[r].typ.unit)
    requires forall r :: r in ReferencesOfAll(ns) && r in env ==> r in values && InputMatches(values[r], env[r].typ)
    ensures InferAll(ns, env).Success?
    ensures ListSound(EvaluateAll(ns, types, values), InferAll(ns, env).value)
    decreases ns, 0
  {
    hide Infer, Evaluate, WellFormed, InputMatches, Trimmed;
    if ns != [] {
      TypeSoundness(ns[0], env, types, values);
      assert forall k :: 0 <= k < |ns| - 1 ==> ns[1..][k] == ns[k + 1];
      TypeSoundnessAll(ns[1..], env, types, values);
      ListSoundCons(Evaluate(ns[0], types, values), types[ns[0]],
                    EvaluateAll(ns[1..], types, values), InferAll(ns[1..], env).value);
    }
  }

  /** Trimmed units are needed: inference trims a unit that evaluation then compares
      untrimmed. For every unit `u`, a formula `A + 1` over a number in `u` is accepted, and
      over a matching number it fails exactly if `u` has white space around a name. */
  lemma UntrimmedUnitFails(u: string, v: Value)
    requires InputMatches(v, StaticType(Number, u)) && !v.missing && v.finite
    ensures var env := map["A" := Binding(StaticType(Number, u), "")];
            var n := Binary(Add, Ref("A"), Num(1.0));
            && Infer(n, env).Success? && InputsMatch(n, env, map["A" := v])
            && forall types | Typed(n, env, types) ::
                 var r := Evaluate(n, types, map["A" := v]);
                 && (r == Failure(UnitMismatch) <==> TrimSpace(u) != u && TrimSpace(u) != "")
                 && (r.Success? <==> TrimSpace(u) == u || TrimSpace(u) == "")
  {
    var typ := StaticType(Number, u);
    var env := map["A" := Binding(typ, "")];
    var values := map["A" := v];
    var a, n := Ref("A"), Binary(Add, Ref("A"), Num(1.0));
    UntrimmedIsIncompatible(u);
    NeverEmpty(v.typ.unit, u);
    assert TrimSpace("") == "" by { TrimmedIsUnchanged(""); }
    hide AreCompatible, TrimSpace, Convert;
    assert Infer(n, env) == Success(Inference(StaticType(Number, TrimSpace(u)), "", None));
    var x := EvalInput("A", typ, values);
    assert x.Success? && x.value.typ == typ && !x.value.missing;
    forall types | Typed(n, env, types)
      ensures Evaluate(n, types, values) == EvalBinary(Add, StaticType(Number, TrimSpace(u)), x.value, Numeric(DIMENSIONLESS, 1.0))
    {
      assert n.left == a && Records(types, n.left) && Records(types, n.right);
      assert Infer(a, env) == Success(types[a]) && Infer(n, env) == Success(types[n]);
      hide EvalBinary;
    }
  }

  lemma NeverEmpty(from: string, to: string)
    ensures AreCompatible(from, to) ==> from != "" && to != ""
  {
  }

  /** A name that trimming changes is not listed, so it has no family. */
  lemma UntrimmedIsIncompatible(u: string)
    ensures TrimSpace(u) != u ==> !AreCompatible(u, TrimSpace(u))
  {
    ListedIsTrimmed(u);
    TrimmedIsUnchanged(u);
    hide FamilyOf, TrimSpace, Trimmed;
  }

  lemma ListedIsTrimmed(u: string)
    ensures FamilyOf(u) != Unscaled ==> Trimmed(u)
  {
    DurationIsTrimmed(u);
    DataIsTrimmed(u);
    DataRateIsTrimmed(u);
    OtherIsTrimmed(u);
    hide Trimmed, IsDuration, IsData, IsDataRate, IsPercent, IsBoolean, IsThroughput;
  }

  lemma DurationIsTrimmed(u: string)
    ensures IsDuration(u) ==> Trimmed(u)
  {
  }

  lemma DataIsTrimmed(u: string)
    ensures IsData(u) ==> Trimmed(u)
  {
  }

  lemma DataRateIsTrimmed(u: string)
    ensures IsDataRate(u) ==> Trimmed(u)
  {
  }

  lemma OtherIsTrimmed(u: string)
    ensures IsPercent(u) || IsBoolean(u) || IsThroughput(u) ==> Trimmed(u)
  {
  }
}
