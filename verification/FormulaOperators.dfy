/** What every operator and function of a formula computes, in plain arithmetic. */
module FormulaOperators {
  import opened FormulaSyntax
  import opened FormulaTyping
  import opened FormulaEvaluation
  import opened FormulaSoundness
  import opened FormulaRotation
  import opened FormulaCanonical
  import opened Results
  import opened Strings
  import opened Units

  /** How many base units of its family a unit is. */
  function Scale(unit: string): (p: real)
    ensures p > 0.0
  {
    Factor(FamilyOf(unit), unit)
  }

  /** The number of a value read in a unit, in base units of the unit's family. */
  function Size(v: Value, unit: string): real
  {
    if unit == "" then v.number
    else v.number * Scale(if v.typ.unit == "" then unit else v.typ.unit)
  }

  /** Both are numbers of one unit, or one of them has none. */
  predicate OneUnit(x: Value, y: Value)
  {
    x.typ.unit == y.typ.unit || x.typ.unit == "" || y.typ.unit == ""
  }

  // ----- operands -----

  /** The operands of a typed binary node have the inferred types. */
  lemma OperandTypes(op: BinaryOp, l: Node, r: Node, env: Environment, types: map<Node, Inference>, values: Inputs,
                     x: Value, y: Value)
    requires Typed(Binary(op, l, r), env, types) && UnitsTrimmed(Binary(op, l, r), env)
    requires Evaluate(l, types, values) == Success(x) && Evaluate(r, types, values) == Success(y)
    ensures l in types && r in types && Binary(op, l, r) in types
    ensures WellFormed(types[l]) && WellFormed(types[r]) && HasType(x, types[l]) && HasType(y, types[r])
    ensures InferBinary(op, types[l], types[r]) == Success(types[Binary(op, l, r)])
    ensures Evaluate(Binary(op, l, r), types, values) == EvalBinary(op, types[Binary(op, l, r)].typ, x, y)
  {
    hide InferBinary, EvalBinary, WellFormed, HasType;
    var n := Binary(op, l, r);
    assert n.left == l && n.right == r;
    OperandType(l, env, types, values, x);
    OperandType(r, env, types, values, y);
    assert Infer(n, env) == Success(types[n]);
  }

  lemma OperandType(n: Node, env: Environment, types: map<Node, Inference>, values: Inputs, x: Value)
    requires Typed(n, env, types) && UnitsTrimmed(n, env) && Evaluate(n, types, values) == Success(x)
    ensures n in types && Infer(n, env) == Success(types[n]) && WellFormed(types[n]) && HasType(x, types[n])
  {
    hide Infer, Evaluate, Meaning, WellFormed, HasType;
    assert Infer(n, env) == Success(types[n]);
    EvaluateIsMeaning(n, env, types, values);
    MeaningIsSound(n, env, values);
  }

  // ----- leaves -----

  lemma LiteralMeans(x: real, types: map<Node, Inference>, values: Inputs)
    requires Num(x) in types
    ensures Evaluate(Num(x), types, values) == Success(Value(StaticType(Number, ""), x, false, false, true))
  {
  }

  /** An input must be there and of its bound kind. A truth has no unit and is passed on; a
      number without a value is Missing, one with a value keeps its size in the bound unit. */
  lemma InputMeans(name: string, env: Environment, types: map<Node, Inference>, values: Inputs)
    requires Typed(Ref(name), env, types)
    ensures name in env
    ensures var (typ, r) := (env[name].typ, Evaluate(Ref(name), types, values));
            && (name !in values ==> r.Failure?)
            && (name in values && values[name].typ.kind != typ.kind ==> r.Failure?)
            && (name in values && values[name].typ.kind == typ.kind ==>
                  var v := values[name];
                  && (typ.kind == Bool ==>
                        && (r.Success? <==> v.typ.unit == "")
                        && (r.Success? ==> r.value.typ == typ && r.value.truth == v.truth && r.value.missing == v.missing))
                  && (typ.kind == Number && (v.missing || !v.finite) ==> r.Success? && r.value.typ == typ && r.value.missing)
                  && (typ.kind == Number && !v.missing && v.finite ==>
                        && (r.Success? <==>
                              (v.typ.unit == "" && typ.unit == "")
                              || (v.typ.unit != "" && typ.unit != "" && AreCompatible(v.typ.unit, typ.unit)))
                        && (r.Success? ==>
                              && r.value.typ == typ && !r.value.missing && r.value.finite
                              && (typ.unit == v.typ.unit ==> r.value.number == v.number)
                              && r.value.number * Scale(typ.unit) == v.number * Scale(v.typ.unit))))
  {
    hide FamilyOf, Factor;
    assert Infer(Ref(name), env) == Success(types[Ref(name)]);
    if name in values {
      var v, typ := values[name], env[name].typ;
      if v.typ.kind == Number && AreCompatible(v.typ.unit, typ.unit) {
        SameFamily(v.typ.unit, typ.unit);
        CrossScale(0.0, v.number, Scale(v.typ.unit), Scale(typ.unit));
        ConvertInverts(v.number, v.typ.unit, v.typ.unit);
      }
    }
  }

  // ----- comparisons -----

  lemma CrossScale(x: real, y: real, p: real, q: real)
    requires q > 0.0
    ensures x < y * p / q <==> x * q < y * p
    ensures x > y * p / q <==> x * q > y * p
    ensures y * p / q * q == y * p
  {
    var z := y * p / q;
    assert z * q == y * p;
    if x < z { assert (z - x) * q > 0.0; }
    if x > z { assert (x - z) * q > 0.0; }
  }

  /** Reading in another unit changes the number and not the size. */
  lemma ReadKeepsSize(v: Value, unit: string)
    requires unit != "" && (v.typ.unit == "" || v.typ.unit == unit || AreCompatible(v.typ.unit, unit))
    ensures ReadIn(v.number, v.typ.unit, unit) * Scale(unit) == Size(v, unit)
  {
    SameFamily(v.typ.unit, unit);
    hide FamilyOf, Factor, AreCompatible;
    var from := v.typ.unit;
    CrossScale(0.0, v.number, Factor(FamilyOf(from), from), Factor(FamilyOf(from), unit));
  }

  lemma SameFamily(a: string, b: string)
    ensures AreCompatible(a, b) ==> FamilyOf(a) == FamilyOf(b)
  {
  }

  lemma SizeOrder(a: real, b: real, p: real, s: real, t: real)
    requires p > 0.0 && a * p == s && b * p == t
    ensures s < t <==> a < b
    ensures s == t <==> a == b
  {
    if a < b { assert (b - a) * p > 0.0; }
    if a > b { assert (a - b) * p > 0.0; }
  }

  /** Numbers read in one unit order as their sizes do. */
  lemma ReadKeepsOrder(x: Value, y: Value, unit: string)
    requires x.typ.unit == "" || x.typ.unit == unit || AreCompatible(x.typ.unit, unit)
    requires y.typ.unit == "" || y.typ.unit == unit || AreCompatible(y.typ.unit, unit)
    ensures var a, b := ReadIn(x.number, x.typ.unit, unit), ReadIn(y.number, y.typ.unit, unit);
            (a < b <==> Size(x, unit) < Size(y, unit)) && (a == b <==> Size(x, unit) == Size(y, unit))
  {
    hide AreCompatible, Convert, Scale;
    if unit == "" {
      assert Size(x, unit) == x.number && Size(y, unit) == y.number;
    } else {
      ReadKeepsSize(x, unit);
      ReadKeepsSize(y, unit);
      SizeOrder(ReadIn(x.number, x.typ.unit, unit), ReadIn(y.number, y.typ.unit, unit), Scale(unit), Size(x, unit), Size(y, unit));
    }
  }

  lemma ComparedUnits(op: BinaryOp, i: Inference, j: Inference)
    requires IsComparison(op) && WellFormed(i) && WellFormed(j) && InferBinary(op, i, j).Success?
    ensures i.typ.kind == Number && j.typ.kind == Number
    ensures i.typ.unit != "" && j.typ.unit != "" ==> AreCompatible(i.typ.unit, j.typ.unit) && AreCompatible(j.typ.unit, i.typ.unit)
    ensures InferBinary(op, i, j).value.typ == StaticType(Bool, "")
  {
    UnitsAreTrimmed(i);
    UnitsAreTrimmed(j);
    CompatibleIsEquivalence(i.typ.unit, j.typ.unit, i.typ.unit);
    hide FamilyOf, TrimSpace;
  }

  lemma ComparisonIsRead(op: BinaryOp, typ: StaticType, x: Value, y: Value)
    requires IsComparison(op) && typ == TRUTH && x.typ.kind == Number && y.typ.kind == Number && !x.missing && !y.missing
    requires x.typ.unit != "" && y.typ.unit != "" ==> AreCompatible(x.typ.unit, y.typ.unit) && AreCompatible(y.typ.unit, x.typ.unit)
    ensures var unit := if x.typ.unit == "" then y.typ.unit else x.typ.unit;
            var a, b := ReadIn(x.number, x.typ.unit, unit), ReadIn(y.number, y.typ.unit, unit);
            var v := EvalBinary(op, typ, x, y);
            && v.Success? && !v.value.missing && v.value.typ == TRUTH
            && (op == Gt ==> (v.value.truth <==> a > b)) && (op == Ge ==> (v.value.truth <==> a >= b))
            && (op == Lt ==> (v.value.truth <==> a < b)) && (op == Le ==> (v.value.truth <==> a <= b))
            && (op == Eq ==> (v.value.truth <==> a == b)) && (op == Ne ==> (v.value.truth <==> a != b))
  {
    var unit := if x.typ.unit == "" then y.typ.unit else x.typ.unit;
    hide AreCompatible, Convert;
    ReadsIn(x, unit);
    ReadsIn(y, unit);
    hide NumberInUnit, ReadIn;
  }

  /** A comparison of two numbers is the truth of its relation between them: between the plain
      numbers in one unit, and between their sizes in two. */
  lemma ComparisonMeans(op: BinaryOp, l: Node, r: Node, env: Environment, types: map<Node, Inference>, values: Inputs,
                        x: Value, y: Value)
    requires op in {Gt, Ge, Lt, Le, Eq, Ne}
    requires Typed(Binary(op, l, r), env, types) && UnitsTrimmed(Binary(op, l, r), env)
    requires Evaluate(l, types, values) == Success(x) && Evaluate(r, types, values) == Success(y) && !x.missing && !y.missing
    ensures var v := Evaluate(Binary(op, l, r), types, values);
            var unit := if x.typ.unit == "" then y.typ.unit else x.typ.unit;
            var one := OneUnit(x, y);
            var a, b := if one then x.number else Size(x, unit), if one then y.number else Size(y, unit);
            && v.Success? && !v.value.missing && v.value.typ == StaticType(Bool, "")
            && (op == Gt ==> (v.value.truth <==> a > b)) && (op == Ge ==> (v.value.truth <==> a >= b))
            && (op == Lt ==> (v.value.truth <==> a < b)) && (op == Le ==> (v.value.truth <==> a <= b))
            && (op == Eq ==> (v.value.truth <==> a == b)) && (op == Ne ==> (v.value.truth <==> a != b))
  {
    var unit := if x.typ.unit == "" then y.typ.unit else x.typ.unit;
    OperandTypes(op, l, r, env, types, values, x, y);
    ComparedUnits(op, types[l], types[r]);
    ComparisonIsRead(op, TRUTH, x, y);
    ReadKeepsOrder(x, y, unit);
    hide Evaluate, InferBinary, EvalBinary, Size, WellFormed, Convert, AreCompatible;
  }

  // ----- arithmetic -----

  lemma SizesAdd(a: real, b: real, p: real)
    ensures (a + b) * p == a * p + b * p && (a - b) * p == a * p - b * p
  {
  }

  /** A sum or difference is that of the plain numbers in one unit, and of the sizes in two; it is
      in the unit of its first operand that has one. */
  lemma SumMeans(op: BinaryOp, l: Node, r: Node, env: Environment, types: map<Node, Inference>, values: Inputs,
                 x: Value, y: Value)
    requires op in {Add, Sub}
    requires Typed(Binary(op, l, r), env, types) && UnitsTrimmed(Binary(op, l, r), env)
    requires Evaluate(l, types, values) == Success(x) && Evaluate(r, types, values) == Success(y) && !x.missing && !y.missing
    ensures var v := Evaluate(Binary(op, l, r), types, values);
            var unit := if x.typ.unit == "" then y.typ.unit else x.typ.unit;
            && v.Success? && !v.value.missing && v.value.typ == StaticType(Number, unit)
            && Size(v.value, unit) == (if op == Add then Size(x, unit) + Size(y, unit) else Size(x, unit) - Size(y, unit))
            && (OneUnit(x, y) ==> v.value.number == if op == Add then x.number + y.number else x.number - y.number)
  {
    hide Evaluate, InferBinary, EvalBinary, WellFormed, HasType, Size;
    OperandTypes(op, l, r, env, types, values, x, y);
    SumOf(op, types[l], types[r], x, y);
  }

  lemma SumOf(op: BinaryOp, i: Inference, j: Inference, x: Value, y: Value)
    requires op in {Add, Sub} && WellFormed(i) && WellFormed(j) && HasType(x, i) && HasType(y, j) && !x.missing && !y.missing
    requires InferBinary(op, i, j).Success?
    ensures var v := EvalBinary(op, InferBinary(op, i, j).value.typ, x, y);
            var unit := if x.typ.unit == "" then y.typ.unit else x.typ.unit;
            && v.Success? && !v.value.missing && v.value.typ == StaticType(Number, unit)
            && Size(v.value, unit) == (if op == Add then Size(x, unit) + Size(y, unit) else Size(x, unit) - Size(y, unit))
            && (OneUnit(x, y) ==> v.value.number == if op == Add then x.number + y.number else x.number - y.number)
  {
    var unit := if x.typ.unit == "" then y.typ.unit else x.typ.unit;
    SumIsRead(op, i, j, x, y);
    SumUnit(op, i, j);
    SumKind(op, i, j);
    CompatibleIsEquivalence(i.typ.unit, j.typ.unit, i.typ.unit);
    hide InferBinary, EvalBinary, WellFormed, Scale, Convert, AreCompatible, ReadIn, Size;
    SumOfRead(op, StaticType(Number, unit), x, y);
  }

  lemma SumOfRead(op: BinaryOp, typ: StaticType, x: Value, y: Value)
    requires op in {Add, Sub} && typ == StaticType(Number, if x.typ.unit == "" then y.typ.unit else x.typ.unit)
    requires x.typ.unit != "" && y.typ.unit != "" ==> AreCompatible(y.typ.unit, x.typ.unit)
    ensures var v := Numeric(typ, Signed(op, ReadIn(x.number, x.typ.unit, typ.unit), ReadIn(y.number, y.typ.unit, typ.unit)));
            && Size(v, typ.unit) ==
               (if op == Add then Size(x, typ.unit) + Size(y, typ.unit) else Size(x, typ.unit) - Size(y, typ.unit))
            && (OneUnit(x, y) ==> v.number == if op == Add then x.number + y.number else x.number - y.number)
  {
    hide AreCompatible, Convert, Scale;
    var unit := typ.unit;
    var a, b := ReadIn(x.number, x.typ.unit, unit), ReadIn(y.number, y.typ.unit, unit);
    if unit != "" {
      ReadKeepsSize(x, unit);
      ReadKeepsSize(y, unit);
      SizesAdd(a, b, Scale(unit));
    }
  }

  lemma SumKind(op: BinaryOp, i: Inference, j: Inference)
    requires op in {Add, Sub} && InferBinary(op, i, j).Success?
    ensures InferBinary(op, i, j).value.typ.kind == Number
  {
  }

  /** A product is that of the plain numbers; at most one operand has a unit, and it is kept. */
  lemma ProductMeans(l: Node, r: Node, env: Environment, types: map<Node, Inference>, values: Inputs, x: Value, y: Value)
    requires Typed(Binary(Mul, l, r), env, types) && UnitsTrimmed(Binary(Mul, l, r), env)
    requires Evaluate(l, types, values) == Success(x) && Evaluate(r, types, values) == Success(y) && !x.missing && !y.missing
    ensures var v := Evaluate(Binary(Mul, l, r), types, values);
            && (x.typ.unit == "" || y.typ.unit == "")
            && v.Success? && !v.value.missing
            && v.value.typ == StaticType(Number, if x.typ.unit == "" then y.typ.unit else x.typ.unit)
            && v.value.number == x.number * y.number
  {
    hide Evaluate, InferBinary, EvalBinary, WellFormed, HasType, Size;
    OperandTypes(Mul, l, r, env, types, values, x, y);
    ProductOf(types[l], types[r], x, y);
  }

  lemma ProductOf(i: Inference, j: Inference, x: Value, y: Value)
    requires HasType(x, i) && HasType(y, j) && !x.missing && !y.missing && InferBinary(Mul, i, j).Success?
    ensures var v := EvalBinary(Mul, InferBinary(Mul, i, j).value.typ, x, y);
            && (x.typ.unit == "" || y.typ.unit == "")
            && v.Success? && !v.value.missing
            && v.value.typ == StaticType(Number, if x.typ.unit == "" then y.typ.unit else x.typ.unit)
            && v.value.number == x.number * y.number
  {
  }

  /** Missing exactly for a zero divisor. Otherwise times the divisor it is the dividend: in plain
      numbers, and in sizes between two units, where it has none. */
  predicate IsQuotient(v: Evaluated, x: Value, y: Value)
  {
    && v.Success? && (v.value.missing <==> y.number == 0.0)
    && v.value.typ == StaticType(Number, if y.typ.unit == "" then x.typ.unit else "")
    && (y.typ.unit != "" ==> x.typ.unit != "")
    && (!v.value.missing && y.typ.unit != "" ==> v.value.number * Size(y, y.typ.unit) == Size(x, x.typ.unit))
    && (!v.value.missing && OneUnit(x, y) ==> v.value.number * y.number == x.number)
  }

  lemma QuotientMeans(l: Node, r: Node, env: Environment, types: map<Node, Inference>, values: Inputs, x: Value, y: Value)
    requires Typed(Binary(Div, l, r), env, types) && UnitsTrimmed(Binary(Div, l, r), env)
    requires Evaluate(l, types, values) == Success(x) && Evaluate(r, types, values) == Success(y) && !x.missing && !y.missing
    ensures IsQuotient(Evaluate(Binary(Div, l, r), types, values), x, y)
  {
    hide Evaluate, InferBinary, EvalBinary, WellFormed, HasType, IsQuotient;
    OperandTypes(Div, l, r, env, types, values, x, y);
    QuotientOf(types[l], types[r], x, y);
  }

  lemma QuotientOf(i: Inference, j: Inference, x: Value, y: Value)
    requires WellFormed(i) && WellFormed(j) && HasType(x, i) && HasType(y, j) && !x.missing && !y.missing
    requires InferBinary(Div, i, j).Success?
    ensures IsQuotient(EvalBinary(Div, InferBinary(Div, i, j).value.typ, x, y), x, y)
  {
    hide FamilyOf, Factor;
    var u, w := x.typ.unit, y.typ.unit;
    QuotientUnits(i, j);
    ProductIsRead(Div, i, j, x, y);
    CompatibleIsEquivalence(u, w, u);
    ConvertKeepsOrder(y.number, 0.0, w, u);
    hide InferBinary, EvalBinary, WellFormed, AreCompatible, Scale, Convert;
    var d := Divisor(u, y.number, w);
    if y.number != 0.0 {
      assert d != 0.0;
      if w != "" {
        ReadKeepsSize(y, u);
        QuotientOfSizes(x.number, d, Scale(u));
      }
      QuotientOfSizes(x.number, d, 1.0);
    }
  }

  lemma QuotientOfSizes(x: real, d: real, p: real)
    requires d != 0.0
    ensures Quotient(x, d) * (d * p) == x * p
  {
    var q := Quotient(x, d);
    assert q * d == x;
    assert q * (d * p) == q * d * p;
  }

  lemma QuotientUnits(i: Inference, j: Inference)
    requires WellFormed(i) && WellFormed(j) && InferBinary(Div, i, j).Success?
    ensures i.typ.kind == Number && j.typ.kind == Number
    ensures j.typ.unit != "" ==> i.typ.unit != "" && AreCompatible(i.typ.unit, j.typ.unit)
    ensures InferBinary(Div, i, j).value.typ == StaticType(Number, if j.typ.unit == "" then i.typ.unit else "")
  {
    UnitsAreTrimmed(i);
    UnitsAreTrimmed(j);
    hide AreCompatible;
  }

  // ----- logic, signs and Missing -----

  /** Conjunction, disjunction. */
  lemma LogicMeans(op: BinaryOp, l: Node, r: Node, env: Environment, types: map<Node, Inference>, values: Inputs,
                   x: Value, y: Value)
    requires op in {And, Or}
    requires Typed(Binary(op, l, r), env, types) && UnitsTrimmed(Binary(op, l, r), env)
    requires Evaluate(l, types, values) == Success(x) && Evaluate(r, types, values) == Success(y) && !x.missing && !y.missing
    ensures var v := Evaluate(Binary(op, l, r), types, values);
            && x.typ == y.typ == StaticType(Bool, "")
            && v.Success? && !v.value.missing && v.value.typ == StaticType(Bool, "")
            && (v.value.truth <==> if op == And then x.truth && y.truth else x.truth || y.truth)
  {
    OperandTypes(op, l, r, env, types, values, x, y);
    hide Evaluate, WellFormed;
  }

  /** A binary operator fails with its left operand, then with its right one, and is Missing if
      one of them is. */
  lemma BinaryIsStrict(op: BinaryOp, l: Node, r: Node, env: Environment, types: map<Node, Inference>, values: Inputs)
    requires Typed(Binary(op, l, r), env, types) && UnitsTrimmed(Binary(op, l, r), env)
    ensures var x, y := Evaluate(l, types, values), Evaluate(r, types, values);
            var v := Evaluate(Binary(op, l, r), types, values);
            && (x.Failure? ==> v == x) && (x.Success? && y.Failure? ==> v == y)
            && (x.Success? && y.Success? && (x.value.missing || y.value.missing) ==> v.Success? && v.value.missing)
  {
    var x, y := Evaluate(l, types, values), Evaluate(r, types, values);
    assert Binary(op, l, r).left == l && Binary(op, l, r).right == r;
    assert Binary(op, l, r) in types;
    if x.Success? && y.Success? {
      OperandTypes(op, l, r, env, types, values, x.value, y.value);
      hide Evaluate;
    }
  }

  /** Negation of a truth, the sign of a number; Missing stays Missing. */
  lemma UnaryMeans(op: UnaryOp, l: Node, env: Environment, types: map<Node, Inference>, values: Inputs, x: Value)
    requires Typed(Unary(op, l), env, types) && UnitsTrimmed(Unary(op, l), env) && Evaluate(l, types, values) == Success(x)
    ensures var v := Evaluate(Unary(op, l), types, values);
            && v.Success? && v.value.typ == x.typ && v.value.missing == x.missing
            && (!x.missing && op == Not ==> x.typ == StaticType(Bool, "") && (v.value.truth <==> !x.truth))
            && (!x.missing && op == Minus ==> x.typ.kind == Number && v.value.number == -x.number)
            && (!x.missing && op == Plus ==> x.typ.kind == Number && v.value.number == x.number)
  {
    var n := Unary(op, l);
    assert n.operand == l && Records(types, l);
    OperandType(l, env, types, values, x);
    assert Infer(n, env) == Success(types[n]);
  }

  // ----- functions -----

  /** Arguments that all evaluate. */
  predicate ArgumentsAre(args: seq<Node>, types: map<Node, Inference>, values: Inputs, vs: seq<Value>)
  {
    |args| == |vs| && forall k :: 0 <= k < |args| ==> Evaluate(args[k], types, values) == Success(vs[k])
  }

  lemma {:induction false} AllEvaluate(args: seq<Node>, types: map<Node, Inference>, values: Inputs, vs: seq<Value>)
    requires ArgumentsAre(args, types, values, vs)
    ensures EvaluateAll(args, types, values) == Success(vs)
  {
    hide Evaluate;
    if args != [] {
      assert ArgumentsAre(args[1..], types, values, vs[1..]);
      AllEvaluate(args[1..], types, values, vs[1..]);
      assert vs == [vs[0]] + vs[1..];
    }
  }

  lemma ArgumentTypes(fn: string, args: seq<Node>, env: Environment, types: map<Node, Inference>, values: Inputs, vs: seq<Value>)
    returns (many: seq<Inference>)
    requires Typed(Call(fn, args), env, types) && UnitsTrimmed(Call(fn, args), env) && ArgumentsAre(args, types, values, vs)
    ensures |many| == |args| && forall k :: 0 <= k < |args| ==> WellFormed(many[k]) && HasType(vs[k], many[k])
    ensures InferCall(fn, many).Success? && Call(fn, args) in types
    ensures Evaluate(Call(fn, args), types, values) == EvalCall(fn, InferCall(fn, many).value.typ, vs)
  {
    hide InferCall, EvalCall, WellFormed, HasType;
    var n := Call(fn, args);
    assert Infer(n, env) == Success(types[n]);
    many := InferAll(args, env).value;
    AllEvaluate(args, types, values, vs);
    assert n.args == args;
    hide Evaluate;
    EvaluateAllIsMeanings(args, env, types, values);
    MeaningsAreSound(args, env, values);
    InferenceShapes(args, env);
  }

  lemma AbsMeans(arg: Node, env: Environment, types: map<Node, Inference>, values: Inputs, x: Value)
    requires Typed(Call("abs", [arg]), env, types) && UnitsTrimmed(Call("abs", [arg]), env)
    requires Evaluate(arg, types, values) == Success(x)
    ensures var v := Evaluate(Call("abs", [arg]), types, values);
            && v.Success? && v.value.typ == x.typ && v.value.missing == x.missing
            && (!x.missing ==> v.value.number == if x.number < 0.0 then -x.number else x.number)
  {
    var many := ArgumentTypes("abs", [arg], env, types, values, [x]);
    assert AnyMissing([x]) <==> x.missing by { assert [x][0] == x; }
    assert HasType([x][0], many[0]);
    hide Evaluate;
  }

  function Smaller(a: real, b: real): real { if a < b then a else b }

  function Larger(a: real, b: real): real { if a > b then a else b }

  /** The smaller or larger of two numbers: of the plain ones in one unit, of the sizes in two. */
  lemma ExtremumMeans(fn: string, l: Node, r: Node, env: Environment, types: map<Node, Inference>, values: Inputs,
                      x: Value, y: Value)
    requires fn == "min" || fn == "max"
    requires Typed(Call(fn, [l, r]), env, types) && UnitsTrimmed(Call(fn, [l, r]), env)
    requires Evaluate(l, types, values) == Success(x) && Evaluate(r, types, values) == Success(y)
    ensures var v := Evaluate(Call(fn, [l, r]), types, values);
            var unit := if x.typ.unit == "" then y.typ.unit else x.typ.unit;
            && v.Success? && v.value.typ == StaticType(Number, unit) && (v.value.missing <==> x.missing || y.missing)
            && (!v.value.missing && OneUnit(x, y) ==>
                  v.value.number == if fn == "min" then Smaller(x.number, y.number) else Larger(x.number, y.number))
            && (!v.value.missing ==>
                  Size(v.value, unit) ==
                  if fn == "min" then Smaller(Size(x, unit), Size(y, unit)) else Larger(Size(x, unit), Size(y, unit)))
  {
    hide Evaluate, InferCall, EvalCall, WellFormed, HasType, Size, Scale;
    var many := ArgumentTypes(fn, [l, r], env, types, values, [x, y]);
    assert HasType([x, y][0], many[0]) && HasType([x, y][1], many[1]);
    assert many == [many[0], many[1]];
    ExtremumOf(fn, many[0], many[1], x, y);
  }

  lemma ExtremumOf(fn: string, i: Inference, j: Inference, x: Value, y: Value)
    requires fn == "min" || fn == "max"
    requires WellFormed(i) && WellFormed(j) && HasType(x, i) && HasType(y, j) && InferCall(fn, [i, j]).Success?
    ensures var v := EvalCall(fn, InferCall(fn, [i, j]).value.typ, [x, y]);
            var unit := if x.typ.unit == "" then y.typ.unit else x.typ.unit;
            && v.Success? && v.value.typ == StaticType(Number, unit) && (v.value.missing <==> x.missing || y.missing)
            && (!v.value.missing && OneUnit(x, y) ==>
                  v.value.number == if fn == "min" then Smaller(x.number, y.number) else Larger(x.number, y.number))
            && (!v.value.missing ==>
                  Size(v.value, unit) ==
                  if fn == "min" then Smaller(Size(x, unit), Size(y, unit)) else Larger(Size(x, unit), Size(y, unit)))
  {
    hide Size, Scale, Convert, AreCompatible;
    var unit := if x.typ.unit == "" then y.typ.unit else x.typ.unit;
    ExtremumUnits(fn, i, j);
    assert AnyMissing([x, y]) <==> x.missing || y.missing by { assert [x, y][0] == x && [x, y][1] == y; }
    ReadsIn(x, unit);
    ReadsIn(y, unit);
    hide InferCall, ReadIn, NumberInUnit;
    SmallerRead(x, y, unit);
  }

  /** The smaller number is that of the smaller size. */
  lemma SmallerRead(x: Value, y: Value, unit: string)
    requires unit == if x.typ.unit == "" then y.typ.unit else x.typ.unit
    requires x.typ.unit != "" && y.typ.unit != "" ==> AreCompatible(y.typ.unit, x.typ.unit)
    ensures var a, b := ReadIn(x.number, x.typ.unit, unit), ReadIn(y.number, y.typ.unit, unit);
            forall typ: StaticType :: typ.unit == unit ==>
              && Size(Numeric(typ, Least(a, b)), unit) == Smaller(Size(x, unit), Size(y, unit))
              && Size(Numeric(typ, Greatest(a, b)), unit) == Larger(Size(x, unit), Size(y, unit))
    ensures OneUnit(x, y) ==>
              && Least(ReadIn(x.number, x.typ.unit, unit), ReadIn(y.number, y.typ.unit, unit)) == Smaller(x.number, y.number)
              && Greatest(ReadIn(x.number, x.typ.unit, unit), ReadIn(y.number, y.typ.unit, unit)) == Larger(x.number, y.number)
  {
    hide AreCompatible, Convert, Scale, Size;
    ReadKeepsOrder(x, y, unit);
    forall typ: StaticType | typ.unit == unit
      ensures Size(Numeric(typ, ReadIn(x.number, x.typ.unit, unit)), unit) == Size(x, unit)
      ensures Size(Numeric(typ, ReadIn(y.number, y.typ.unit, unit)), unit) == Size(y, unit)
    {
      ReadHasSize(x, typ);
      ReadHasSize(y, typ);
    }
  }

  lemma ReadHasSize(v: Value, typ: StaticType)
    requires v.typ.unit == "" || v.typ.unit == typ.unit || AreCompatible(v.typ.unit, typ.unit)
    ensures Size(Numeric(typ, ReadIn(v.number, v.typ.unit, typ.unit)), typ.unit) == Size(v, typ.unit)
  {
    hide AreCompatible, Convert, Scale;
    if typ.unit != "" {
      ReadKeepsSize(v, typ.unit);
      hide ReadIn;
    }
  }

  lemma ExtremumUnits(fn: string, i: Inference, j: Inference)
    requires fn == "min" || fn == "max"
    requires WellFormed(i) && WellFormed(j) && InferCall(fn, [i, j]).Success?
    ensures i.typ.kind == Number && j.typ.kind == Number
    ensures i.typ.unit != "" && j.typ.unit != "" ==> AreCompatible(i.typ.unit, j.typ.unit) && AreCompatible(j.typ.unit, i.typ.unit)
    ensures InferCall(fn, [i, j]).value.typ == StaticType(Number, if i.typ.unit == "" then j.typ.unit else i.typ.unit)
  {
    assert [i, j][0] == i && [i, j][1] == j;
    UnitsAreTrimmed(i);
    UnitsAreTrimmed(j);
    CompatibleIsEquivalence(i.typ.unit, j.typ.unit, i.typ.unit);
    hide AreCompatible, TrimSpace, ConstantInUnit;
  }

  /** A value between two bounds, or the bound it crosses; it fails if the bounds cross. */
  predicate IsClamped(v: Evaluated, typ: StaticType, number: real, x: real, low: real, high: real)
  {
    if low > high then v == Failure(LowAboveHigh)
    else v.Success? && !v.value.missing && v.value.typ == typ
         && number == (if x < low then low else if x > high then high else x)
  }

  /** The sizes of a clamped value and its bounds, in the unit of the first that has one. */
  lemma ClampMeans(a: Node, b: Node, c: Node, env: Environment, types: map<Node, Inference>, values: Inputs,
                   x: Value, lo: Value, hi: Value)
    requires Typed(Call("clamp", [a, b, c]), env, types) && UnitsTrimmed(Call("clamp", [a, b, c]), env)
    requires Evaluate(a, types, values) == Success(x) && Evaluate(b, types, values) == Success(lo)
    requires Evaluate(c, types, values) == Success(hi)
    ensures var v := Evaluate(Call("clamp", [a, b, c]), types, values);
            var unit := ClampUnit(x, lo, hi);
            if x.missing || lo.missing || hi.missing then v.Success? && v.value.missing && v.value.typ == StaticType(Number, unit)
            else IsClamped(v, StaticType(Number, unit), if v.Success? then Size(v.value, unit) else 0.0,
                           Size(x, unit), Size(lo, unit), Size(hi, unit))
  {
    hide Evaluate, InferCall, EvalCall, WellFormed, HasType, Size, Scale, IsClamped, ClampUnit;
    var vs := [x, lo, hi];
    var many := ArgumentTypes("clamp", [a, b, c], env, types, values, vs);
    assert HasType(vs[0], many[0]) && HasType(vs[1], many[1]) && HasType(vs[2], many[2]);
    assert many == [many[0], many[1], many[2]];
    ClampOf(many[0], many[1], many[2], x, lo, hi);
  }

  function ClampUnit(x: Value, lo: Value, hi: Value): string
  {
    if x.typ.unit != "" then x.typ.unit else if lo.typ.unit != "" then lo.typ.unit else hi.typ.unit
  }

  lemma ClampOf(i: Inference, j: Inference, k: Inference, x: Value, lo: Value, hi: Value)
    requires WellFormed(i) && WellFormed(j) && WellFormed(k) && HasType(x, i) && HasType(lo, j) && HasType(hi, k)
    requires InferCall("clamp", [i, j, k]).Success?
    ensures var v := EvalCall("clamp", InferCall("clamp", [i, j, k]).value.typ, [x, lo, hi]);
            var unit := ClampUnit(x, lo, hi);
            if x.missing || lo.missing || hi.missing then v.Success? && v.value.missing && v.value.typ == StaticType(Number, unit)
            else IsClamped(v, StaticType(Number, unit), if v.Success? then Size(v.value, unit) else 0.0,
                           Size(x, unit), Size(lo, unit), Size(hi, unit))
  {
    hide Size, Scale, Convert, AreCompatible, IsClamped;
    var unit := ClampUnit(x, lo, hi);
    ClampUnits(i, j, k);
    var vs := [x, lo, hi];
    assert AnyMissing(vs) <==> x.missing || lo.missing || hi.missing by { assert vs[0] == x && vs[1] == lo && vs[2] == hi; }
    ReadsIn(x, unit);
    ReadsIn(lo, unit);
    ReadsIn(hi, unit);
    hide InferCall, NumberInUnit, ClampUnit;
    ClampRead(x, lo, hi, unit);
    hide ReadIn;
  }

  lemma ClampRead(x: Value, lo: Value, hi: Value, unit: string)
    requires forall v :: v in {x, lo, hi} ==> v.typ.unit == "" || v.typ.unit == unit || AreCompatible(v.typ.unit, unit)
    ensures var a, b, c := ReadIn(x.number, x.typ.unit, unit), ReadIn(lo.number, lo.typ.unit, unit), ReadIn(hi.number, hi.typ.unit, unit);
            var typ := StaticType(Number, unit);
            if b > c then IsClamped(Failure(LowAboveHigh), typ, 0.0, Size(x, unit), Size(lo, unit), Size(hi, unit))
            else
              var v := Numeric(typ, Least(Greatest(a, b), c));
              IsClamped(Success(v), typ, Size(v, unit), Size(x, unit), Size(lo, unit), Size(hi, unit))
  {
    hide AreCompatible, Convert, Scale, Size, ReadIn;
    assert x in {x, lo, hi} && lo in {x, lo, hi} && hi in {x, lo, hi};
    ReadKeepsOrder(x, lo, unit);
    ReadKeepsOrder(x, hi, unit);
    ReadKeepsOrder(lo, hi, unit);
    var typ := StaticType(Number, unit);
    ReadHasSize(x, typ);
    ReadHasSize(lo, typ);
    ReadHasSize(hi, typ);
  }

  lemma ClampUnits(i: Inference, j: Inference, k: Inference)
    requires WellFormed(i) && WellFormed(j) && WellFormed(k) && InferCall("clamp", [i, j, k]).Success?
    ensures var unit := if i.typ.unit != "" then i.typ.unit else if j.typ.unit != "" then j.typ.unit else k.typ.unit;
            && i.typ.kind == Number && j.typ.kind == Number && k.typ.kind == Number
            && InferCall("clamp", [i, j, k]).value.typ == StaticType(Number, unit)
            && forall v :: v in {i, j, k} ==> v.typ.unit == "" || v.typ.unit == unit || AreCompatible(v.typ.unit, unit)
  {
    var many := [i, j, k];
    assert many[0] == i && many[1] == j && many[2] == k;
    UnitsAreTrimmed(i);
    UnitsAreTrimmed(j);
    UnitsAreTrimmed(k);
    CompatibleIsEquivalence(i.typ.unit, j.typ.unit, k.typ.unit);
    CompatibleIsEquivalence(i.typ.unit, k.typ.unit, j.typ.unit);
    CompatibleIsEquivalence(j.typ.unit, k.typ.unit, i.typ.unit);
    hide AreCompatible, TrimSpace;
  }
}
