/** Which operands every operator and function of a formula takes, and the type it gives. */
module FormulaTypingRules {
  import opened FormulaSyntax
  import opened FormulaTyping
  import opened FormulaSoundness
  import opened Results
  import opened Strings
  import opened Units

  /** Both operands are of one series, or one of them is of none. */
  predicate OneSeries(i: Inference, j: Inference)
  {
    i.signature == j.signature || i.signature == "" || j.signature == ""
  }

  predicate BothNumbers(i: Inference, j: Inference) { i.typ.kind == Number && j.typ.kind == Number }

  /** Numbers that can be added or compared: of one unit, or of units that convert, or one is a
      literal that takes the unit of the other. */
  predicate Comparable(i: Inference, j: Inference)
  {
    && BothNumbers(i, j)
    && (|| i.typ.unit == j.typ.unit || AreCompatible(i.typ.unit, j.typ.unit)
        || (i.typ.unit == "" && i.constant.Some?) || (j.typ.unit == "" && j.constant.Some?))
  }

  /** The first that is not empty. */
  function Either(a: string, b: string): string { if a != "" then a else b }

  lemma TrimmedUnits(i: Inference)
    requires WellFormed(i)
    ensures TrimSpace(i.typ.unit) == i.typ.unit
  {
    TrimmedIsUnchanged(i.typ.unit);
  }

  lemma SameUnit(i: Inference, j: Inference)
    requires WellFormed(i) && WellFormed(j)
    ensures CompatibleUnit(i, j).Success? <==> Comparable(i, j)
    ensures CompatibleUnit(i, j).Success? ==> CompatibleUnit(i, j).value == Either(i.typ.unit, j.typ.unit)
  {
    TrimmedUnits(i);
    TrimmedUnits(j);
    hide TrimSpace, FamilyOf, Trimmed;
  }

  /** Typing of a binary operator over operands of given types. */
  lemma BinaryTypes(op: BinaryOp, l: Node, r: Node, env: Environment, i: Inference, j: Inference)
    requires Infer(l, env) == Success(i) && Infer(r, env) == Success(j) && WellFormed(i) && WellFormed(j)
    ensures Infer(Binary(op, l, r), env).Success? <==>
              && OneSeries(i, j)
              && match op
                 case And | Or => i.typ.kind == Bool && j.typ.kind == Bool
                 case Mul => BothNumbers(i, j) && (i.typ.unit == "" || j.typ.unit == "")
                 case Div =>
                   && BothNumbers(i, j) && j.constant != Some(0.0)
                   && (j.typ.unit == "" || AreCompatible(i.typ.unit, j.typ.unit))
                 case _ => Comparable(i, j)
    ensures Infer(Binary(op, l, r), env).Success? ==>
              var own := Infer(Binary(op, l, r), env).value;
              && own.signature == Either(i.signature, j.signature)
              && own.typ == match op
                          case Add | Sub | Mul => StaticType(Number, Either(i.typ.unit, j.typ.unit))
                          case Div => StaticType(Number, if j.typ.unit == "" then i.typ.unit else "")
                          case _ => StaticType(Bool, "")
  {
    SameUnit(i, j);
    TrimmedUnits(i);
    TrimmedUnits(j);
    hide TrimSpace, FamilyOf, Trimmed, CompatibleUnit, Comparable;
  }

  lemma UnaryTypes(op: UnaryOp, v: Node, env: Environment, i: Inference)
    requires Infer(v, env) == Success(i) && WellFormed(i)
    ensures var r := Infer(Unary(op, v), env);
            && (r.Success? <==> i.typ.kind == if op == Not then Bool else Number)
            && (r.Success? ==> r.value.typ == i.typ && r.value.signature == i.signature)
  {
  }

  /** A number in the unit and of the series of two. */
  predicate IsOver(r: Inference, i: Inference, j: Inference)
  {
    r.typ == StaticType(Number, Either(i.typ.unit, j.typ.unit)) && r.signature == Either(i.signature, j.signature)
  }

  lemma FunctionTypes(fn: string, args: seq<Inference>)
    requires forall k :: 0 <= k < |args| ==> WellFormed(args[k])
    ensures InferCall(fn, args).Success? ==>
              || (fn == "abs" && |args| == 1) || (fn == "clamp" && |args| == 3)
              || ((fn == "min" || fn == "max") && |args| == 2)
    ensures fn == "abs" && |args| == 1 ==>
              && (InferCall(fn, args).Success? <==> args[0].typ.kind == Number)
              && (InferCall(fn, args).Success? ==>
                    InferCall(fn, args).value.typ == args[0].typ && InferCall(fn, args).value.signature == args[0].signature)
    ensures (fn == "min" || fn == "max") && |args| == 2 ==>
              && (InferCall(fn, args).Success? <==> Comparable(args[0], args[1]) && OneSeries(args[0], args[1]))
              && (InferCall(fn, args).Success? ==> IsOver(InferCall(fn, args).value, args[0], args[1]))
  {
    if (fn == "min" || fn == "max") && |args| == 2 {
      SameUnit(args[0], args[1]);
    }
    hide CompatibleUnit, FamilyOf, TrimSpace, Trimmed, InferClamp, Comparable, Convert;
  }

  lemma CallInfers(fn: string, nodes: seq<Node>, env: Environment, args: seq<Inference>)
    requires InferAll(nodes, env) == Success(args)
    ensures Infer(Call(fn, nodes), env) == InferCall(fn, args)
  {
    hide InferCall;
  }

  /** Only four functions are known, each with its number of numeric arguments. */
  lemma CallTypes(fn: string, nodes: seq<Node>, env: Environment, args: seq<Inference>)
    requires InferAll(nodes, env) == Success(args) && forall k :: 0 <= k < |args| ==> WellFormed(args[k])
    ensures Infer(Call(fn, nodes), env).Success? ==>
              || (fn == "abs" && |args| == 1) || (fn == "clamp" && |args| == 3)
              || ((fn == "min" || fn == "max") && |args| == 2)
    ensures fn == "abs" && |args| == 1 ==>
              && (Infer(Call(fn, nodes), env).Success? <==> args[0].typ.kind == Number)
              && (Infer(Call(fn, nodes), env).Success? ==>
                    Infer(Call(fn, nodes), env).value.typ == args[0].typ && Infer(Call(fn, nodes), env).value.signature == args[0].signature)
    ensures (fn == "min" || fn == "max") && |args| == 2 ==>
              && (Infer(Call(fn, nodes), env).Success? <==> Comparable(args[0], args[1]) && OneSeries(args[0], args[1]))
              && (Infer(Call(fn, nodes), env).Success? ==> IsOver(Infer(Call(fn, nodes), env).value, args[0], args[1]))
  {
    hide Infer, InferCall, Comparable, OneSeries, WellFormed, IsOver;
    CallInfers(fn, nodes, env, args);
    FunctionTypes(fn, args);
  }

  lemma ClampFunction(v: Inference, low: Inference, high: Inference)
    requires WellFormed(v) && WellFormed(low) && WellFormed(high)
    ensures var unit := Either(v.typ.unit, low.typ.unit);
            var r := InferClamp(v, low, high);
            && (r.Success? <==>
                  && Comparable(v, low) && high.typ.kind == Number
                  && (unit == high.typ.unit || AreCompatible(unit, high.typ.unit) || (high.typ.unit == "" && high.constant.Some?))
                  && OneSeries(v, low) && OneSeries(v, high) && OneSeries(low, high)
                  && (low.constant.Some? && high.constant.Some? ==> low.constant.value <= high.constant.value))
            && (r.Success? ==>
                  && r.value.typ == StaticType(Number, unit)
                  && r.value.signature == Either(v.signature, Either(low.signature, high.signature)))
  {
    SameUnit(v, low);
    var middle := Inference(StaticType(Number, Either(v.typ.unit, low.typ.unit)), "", None);
    SameUnit(middle, high);
    hide Infer, InferCall, CompatibleUnit, FamilyOf, TrimSpace, Trimmed, AreCompatible;
  }

  lemma ClampCalled(v: Inference, low: Inference, high: Inference)
    ensures InferCall("clamp", [v, low, high]) ==
            if v.typ.kind == Number && low.typ.kind == Number && high.typ.kind == Number then InferClamp(v, low, high)
            else Failure(NeedsNumber)
  {
    hide InferClamp;
    assert [v, low, high][0] == v && [v, low, high][1] == low && [v, low, high][2] == high;
  }

  /** The bounds of a clamp can be compared with its value, and literal bounds do not cross. */
  lemma ClampTypes(nodes: seq<Node>, env: Environment, v: Inference, low: Inference, high: Inference)
    requires InferAll(nodes, env) == Success([v, low, high]) && WellFormed(v) && WellFormed(low) && WellFormed(high)
    ensures var unit := Either(v.typ.unit, low.typ.unit);
            var r := Infer(Call("clamp", nodes), env);
            && (r.Success? <==>
                  && Comparable(v, low) && high.typ.kind == Number
                  && (unit == high.typ.unit || AreCompatible(unit, high.typ.unit) || (high.typ.unit == "" && high.constant.Some?))
                  && OneSeries(v, low) && OneSeries(v, high) && OneSeries(low, high)
                  && (low.constant.Some? && high.constant.Some? ==> low.constant.value <= high.constant.value))
            && (r.Success? ==>
                  && r.value.typ == StaticType(Number, unit)
                  && r.value.signature == Either(v.signature, Either(low.signature, high.signature)))
  {
    hide Infer, InferCall, InferClamp, OneSeries, WellFormed, AreCompatible;
    CallInfers("clamp", nodes, env, [v, low, high]);
    ClampCalled(v, low, high);
    ClampFunction(v, low, high);
  }

  /** Leaves: a literal is a plain number, a reference has the type and series it is bound to. */
  lemma LeafTypes(x: real, name: string, env: Environment)
    ensures Infer(Num(x), env) == Success(Inference(StaticType(Number, ""), "", Some(x)))
    ensures Infer(Ref(name), env).Success? <==>
              && name in env && (env[name].typ.kind == Number || env[name].typ.kind == Bool)
              && (env[name].typ.kind == Bool ==> env[name].typ.unit == "")
    ensures Infer(Ref(name), env).Success? ==> Infer(Ref(name), env).value == Inference(env[name].typ, env[name].signature, None)
  {
  }

  /** A node fails with its first operand or argument that fails. */
  lemma FailuresPass(op: UnaryOp, bop: BinaryOp, fn: string, l: Node, r: Node, args: seq<Node>, env: Environment)
    ensures Infer(l, env).Failure? ==> Infer(Unary(op, l), env) == Infer(l, env) && Infer(Binary(bop, l, r), env) == Infer(l, env)
    ensures Infer(l, env).Success? && Infer(r, env).Failure? ==> Infer(Binary(bop, l, r), env) == Infer(r, env)
    ensures InferAll(args, env).Failure? ==> Infer(Call(fn, args), env) == Failure(InferAll(args, env).error)
  {
    hide InferBinary, InferUnary, InferCall;
  }
}
