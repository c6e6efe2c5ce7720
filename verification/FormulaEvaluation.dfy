/** Strict evaluation of a typed formula for one aligned key. */
module FormulaEvaluation {
  import opened FormulaSyntax
  import opened FormulaTyping
  import opened Results
  import opened Units

  /** A value of one kind. `finite` is false for a floating-point NaN or infinity; such
      numbers only occur in inputs. */
  datatype Value = Value(typ: StaticType, number: real, truth: bool, missing: bool, finite: bool)

  datatype EvalError =
    | NotTypeChecked
    | MissingInput(name: string)
    | KindMismatch(name: string)
    | BoolWithUnit(name: string)
    | UnexpectedUnit(name: string)
    | RequiredUnit(name: string)
    | InputUnitMismatch(name: string)
    | NotNumeric
    | UnitMismatch
    | LowAboveHigh
    | BadCall

  type Evaluated = Result<Value, EvalError>

  type Inputs = map<string, Value>

  function Absent(typ: StaticType): Value { Value(typ, 0.0, false, true, true) }

  function Numeric(typ: StaticType, x: real): Value { Value(typ, x, false, false, true) }

  function Truth(b: bool): Value { Value(TRUTH, 0.0, b, false, true) }

  /** An input number brought to the unit of its binding. */
  function Normalize(name: string, v: Value, target: StaticType): Evaluated
  {
    if v.missing || !v.finite then Success(Absent(target))
    else if target.unit == "" then
      if v.typ.unit != "" then Failure(UnexpectedUnit(name)) else Success(v.(typ := target))
    else if v.typ.unit == "" then Failure(RequiredUnit(name))
    else if !AreCompatible(v.typ.unit, target.unit) then Failure(InputUnitMismatch(name))
    else Success(v.(typ := target, number := Convert(v.number, v.typ.unit, target.unit)))
  }

  function EvalInput(name: string, typ: StaticType, values: Inputs): Evaluated
  {
    if name !in values then Failure(MissingInput(name))
    else
      var v := values[name];
      if v.typ.kind != typ.kind then Failure(KindMismatch(name))
      else if v.typ.kind == Bool then
        if v.typ.unit != "" then Failure(BoolWithUnit(name)) else Success(v.(typ := typ))
      else Normalize(name, v, typ)
  }

  function NumberInUnit(v: Value, target: string): Result<real, EvalError>
  {
    if v.typ.kind != Number then Failure(NotNumeric)
    else if target == "" || v.typ.unit == "" || v.typ.unit == target then Success(v.number)
    else if !AreCompatible(v.typ.unit, target) then Failure(UnitMismatch)
    else Success(Convert(v.number, v.typ.unit, target))
  }

  function EvalUnary(op: UnaryOp, typ: StaticType, v: Value): Evaluated
  {
    if v.missing then Success(Absent(typ))
    else match op
      case Not => Success(Value(typ, 0.0, !v.truth, false, true))
      case Minus => Success(Numeric(typ, -v.number))
      case Plus => Success(Numeric(typ, v.number))
  }

  function EvalArithmetic(op: BinaryOp, typ: StaticType, l: Value, r: Value): Evaluated
    requires op in {Add, Sub, Mul, Div}
  {
    if l.typ.kind != Number || r.typ.kind != Number then Failure(NotNumeric)
    else if op == Add || op == Sub then
      var x, y := NumberInUnit(l, typ.unit), NumberInUnit(r, typ.unit);
      if x.Failure? then Failure(x.error)
      else if y.Failure? then Failure(y.error)
      else Success(Numeric(typ, if op == Add then x.value + y.value else x.value - y.value))
    else if op == Mul then Success(Numeric(typ, Product(l.number, r.number)))
    else if r.number == 0.0 then Success(Absent(typ))
    else if l.typ.unit != "" && r.typ.unit != "" then
      var y := NumberInUnit(r, l.typ.unit);
      if y.Failure? then Failure(y.error)
      else if y.value == 0.0 then Success(Absent(typ))
      else Success(Numeric(typ, Quotient(l.number, y.value)))
    else Success(Numeric(typ, Quotient(l.number, r.number)))
  }

  function Compare(op: BinaryOp, x: real, y: real): bool
    requires IsComparison(op)
  {
    match op
    case Gt => x > y
    case Ge => x >= y
    case Lt => x < y
    case Le => x <= y
    case Eq => x == y
    case _ => x != y
  }

  function EvalComparison(op: BinaryOp, l: Value, r: Value): Evaluated
    requires IsComparison(op)
  {
    if l.typ.kind != Number || r.typ.kind != Number then Failure(NotNumeric)
    else
      var target := if l.typ.unit == "" then r.typ.unit else l.typ.unit;
      var x, y := NumberInUnit(l, target), NumberInUnit(r, target);
      if x.Failure? then Failure(x.error)
      else if y.Failure? then Failure(y.error)
      else Success(Truth(Compare(op, x.value, y.value)))
  }

  function EvalBinary(op: BinaryOp, typ: StaticType, l: Value, r: Value): Evaluated
  {
    if l.missing || r.missing then Success(Absent(typ))
    else match op
      case And => Success(Value(typ, 0.0, l.truth && r.truth, false, true))
      case Or => Success(Value(typ, 0.0, l.truth || r.truth, false, true))
      case Add | Sub | Mul | Div => EvalArithmetic(op, typ, l, r)
      case _ => EvalComparison(op, l, r)
  }

  function EvalClamp(typ: StaticType, v: Value, low: Value, high: Value): Evaluated
  {
    var x, lo, hi := NumberInUnit(v, typ.unit), NumberInUnit(low, typ.unit), NumberInUnit(high, typ.unit);
    if x.Failure? then Failure(x.error)
    else if lo.Failure? then Failure(lo.error)
    else if hi.Failure? then Failure(hi.error)
    else if lo.value > hi.value then Failure(LowAboveHigh)
    else Success(Numeric(typ, Least(Greatest(x.value, lo.value), hi.value)))
  }

  predicate AnyMissing(args: seq<Value>)
  {
    exists i :: 0 <= i < |args| && args[i].missing
  }

  function EvalCall(fn: string, typ: StaticType, args: seq<Value>): Evaluated
  {
    if AnyMissing(args) then Success(Absent(typ))
    else if fn == "abs" then
      if |args| != 1 || args[0].typ.kind != Number then Failure(BadCall)
      else Success(Numeric(typ, Absolute(args[0].number)))
    else if fn == "min" || fn == "max" then
      if |args| != 2 || args[0].typ.kind != Number || args[1].typ.kind != Number then Failure(BadCall)
      else
        var x, y := NumberInUnit(args[0], typ.unit), NumberInUnit(args[1], typ.unit);
        if x.Failure? then Failure(x.error)
        else if y.Failure? then Failure(y.error)
        else Success(Numeric(typ, if fn == "min" then Least(x.value, y.value) else Greatest(x.value, y.value)))
    else if fn == "clamp" then
      if |args| != 3 || args[0].typ.kind != Number || args[1].typ.kind != Number || args[2].typ.kind != Number then
        Failure(BadCall)
      else EvalClamp(typ, args[0], args[1], args[2])
    else Failure(BadCall)
  }

  /** Evaluation against recorded inferences, as the evaluator runs it. */
  function Evaluate(n: Node, types: map<Node, Inference>, values: Inputs): Evaluated
    decreases n, 1
  {
    if n !in types then Failure(NotTypeChecked)
    else
      var typ := types[n].typ;
      match n
      case Num(x) => Success(Numeric(DIMENSIONLESS, x))
      case Ref(name) => EvalInput(name, typ, values)
      case Unary(op, v) =>
        var x := Evaluate(v, types, values);
        if x.Failure? then x else EvalUnary(op, typ, x.value)
      case Binary(op, l, r) =>
        var x := Evaluate(l, types, values);
        if x.Failure? then x
        else
          var y := Evaluate(r, types, values);
          if y.Failure? then y else EvalBinary(op, typ, x.value, y.value)
      case Call(fn, args) =>
        var xs := EvaluateAll(args, types, values);
        if xs.Failure? then Failure(xs.error) else EvalCall(fn, typ, xs.value)
  }

  function EvaluateAll(ns: seq<Node>, types: map<Node, Inference>, values: Inputs)
      : (r: Result<seq<Value>, EvalError>)
    ensures r.Success? ==> |r.value| == |ns|
    decreases ns, 0
  {
    if ns == [] then Success([])
    else
      var first := Evaluate(ns[0], types, values);
      if first.Failure? then Failure(first.error)
      else
        var others := EvaluateAll(ns[1..], types, values);
        if others.Failure? then others else Success([first.value] + others.value)
  }
}
