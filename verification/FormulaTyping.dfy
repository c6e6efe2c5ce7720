/** Static inference for formula trees: kind, unit, series signature and folded constant. */
module FormulaTyping {
  import opened FormulaSyntax
  import opened Results
  import opened Strings
  import opened Units

  datatype Kind = Number | Bool | OtherKind

  datatype StaticType = StaticType(kind: Kind, unit: string) {
    predicate Valid()
    {
      kind != OtherKind && (kind == Bool ==> unit == "")
    }
  }

  const DIMENSIONLESS := StaticType(Number, "")
  const TRUTH := StaticType(Bool, "")

  /** A named input: its type, and the signature of the series it belongs to. */
  datatype Binding = Binding(typ: StaticType, signature: string)

  type Environment = map<string, Binding>

  datatype Inference = Inference(typ: StaticType, signature: string, constant: Option<real>)

  datatype TypeError =
    | UnknownReference(name: string)
    | InvalidBinding(name: string)
    | NeedsBool
    | NeedsNumber
    | SeriesMismatch
    | IncompatibleUnits
    | UnitfulProduct
    | BadDivisor
    | DivisionByLiteralZero
    | WrongArity(fn: string)
    | UnknownFunction(fn: string)
    | ClampBounds
    | NotConstant

  type Inferred = Result<Inference, TypeError>

  function Resolve(env: Environment, name: string): Result<Binding, TypeError>
  {
    if name !in env then Failure(UnknownReference(name))
    else if !env[name].typ.Valid() then Failure(InvalidBinding(name))
    else Success(env[name])
  }

  function MergeSignatures(left: string, right: string): Result<string, TypeError>
  {
    if left == "" then Success(right)
    else if right == "" || left == right then Success(left)
    else Failure(SeriesMismatch)
  }

  /** The common unit of two operands; only a constant may stand in for a unit. */
  function CompatibleUnit(left: Inference, right: Inference): Result<string, TypeError>
  {
    if left.typ.kind != Number || right.typ.kind != Number then Failure(NeedsNumber)
    else
      var l, r := TrimSpace(left.typ.unit), TrimSpace(right.typ.unit);
      if l == "" && r == "" then Success("")
      else if l == "" then (if left.constant.Some? then Success(r) else Failure(IncompatibleUnits))
      else if r == "" then (if right.constant.Some? then Success(l) else Failure(IncompatibleUnits))
      else if AreCompatible(l, r) then Success(l)
      else Failure(IncompatibleUnits)
  }

  function ProductUnit(left: Inference, right: Inference): Result<string, TypeError>
  {
    if left.typ.kind != Number || right.typ.kind != Number then Failure(NeedsNumber)
    else if left.typ.unit != "" && right.typ.unit != "" then Failure(UnitfulProduct)
    else Success(if left.typ.unit != "" then left.typ.unit else right.typ.unit)
  }

  function QuotientUnit(left: Inference, right: Inference): Result<string, TypeError>
  {
    if left.typ.kind != Number || right.typ.kind != Number then Failure(NeedsNumber)
    else
      var l, r := TrimSpace(left.typ.unit), TrimSpace(right.typ.unit);
      if l == "" && r == "" then Success("")
      else if l != "" && r == "" then Success(l)
      else if l != "" && r != "" && AreCompatible(l, r) then Success("")
      else Failure(BadDivisor)
  }

  function Product(x: real, y: real): real { x * y }

  function Quotient(x: real, y: real): real
    requires y != 0.0
  {
    x / y
  }

  function FoldConstant(op: BinaryOp, left: Option<real>, right: Option<real>): Option<real>
  {
    if left.None? || right.None? then None
    else match op
      case Add => Some(left.value + right.value)
      case Sub => Some(left.value - right.value)
      case Mul => Some(Product(left.value, right.value))
      case Div => if right.value == 0.0 then None else Some(Quotient(left.value, right.value))
      case _ => None
  }

  function NumberIn(unit: Result<string, TypeError>, signature: string, constant: Option<real>): Inferred
  {
    match unit
    case Failure(e) => Failure(e)
    case Success(u) => Success(Inference(StaticType(Number, u), signature, constant))
  }

  function InferUnary(op: UnaryOp, v: Inference): Inferred
  {
    if op == Not then
      if v.typ.kind != Bool then Failure(NeedsBool) else Success(Inference(TRUTH, v.signature, None))
    else if v.typ.kind != Number then Failure(NeedsNumber)
    else if v.constant.Some? && op == Minus then Success(v.(constant := Some(-v.constant.value)))
    else Success(v)
  }

  function InferBinary(op: BinaryOp, left: Inference, right: Inference): Inferred
  {
    var signature := MergeSignatures(left.signature, right.signature);
    if signature.Failure? then Failure(signature.error)
    else
      var constant := FoldConstant(op, left.constant, right.constant);
      match op
      case Add | Sub => NumberIn(CompatibleUnit(left, right), signature.value, constant)
      case Mul => NumberIn(ProductUnit(left, right), signature.value, constant)
      case Div =>
        var unit := QuotientUnit(left, right);
        if unit.Success? && right.constant == Some(0.0) then Failure(DivisionByLiteralZero)
        else NumberIn(unit, signature.value, constant)
      case Gt | Ge | Lt | Le | Eq | Ne =>
        var unit := CompatibleUnit(left, right);
        if unit.Failure? then Failure(unit.error) else Success(Inference(TRUTH, signature.value, None))
      case And | Or =>
        if left.typ.kind != Bool || right.typ.kind != Bool then Failure(NeedsBool)
        else Success(Inference(TRUTH, signature.value, None))
  }

  function ConstantInUnit(v: Inference, target: string): Result<real, TypeError>
  {
    if v.constant.None? then Failure(NotConstant)
    else if target == "" || v.typ.unit == "" || v.typ.unit == target then Success(v.constant.value)
    else if !AreCompatible(v.typ.unit, target) then Failure(IncompatibleUnits)
    else Success(Convert(v.constant.value, v.typ.unit, target))
  }

  function Least(x: real, y: real): real { if x <= y then x else y }

  function Greatest(x: real, y: real): real { if x >= y then x else y }

  function Absolute(x: real): real { if x < 0.0 then -x else x }

  function InferExtremum(fn: string, a: Inference, b: Inference): Inferred
  {
    var unit := CompatibleUnit(a, b);
    if unit.Failure? then Failure(unit.error)
    else
      var signature := MergeSignatures(a.signature, b.signature);
      if signature.Failure? then Failure(signature.error)
      else if a.constant.None? || b.constant.None? then
        Success(Inference(StaticType(Number, unit.value), signature.value, None))
      else
        var x, y := ConstantInUnit(a, unit.value), ConstantInUnit(b, unit.value);
        if x.Failure? then Failure(x.error)
        else if y.Failure? then Failure(y.error)
        else
          var c := if fn == "max" then Greatest(x.value, y.value) else Least(x.value, y.value);
          Success(Inference(StaticType(Number, unit.value), signature.value, Some(c)))
  }

  function InferClamp(v: Inference, low: Inference, high: Inference): Inferred
  {
    var first := CompatibleUnit(v, low);
    if first.Failure? then Failure(first.error)
    else
      var unit := CompatibleUnit(Inference(StaticType(Number, first.value), "", None), high);
      if unit.Failure? then Failure(unit.error)
      else
        var lower := MergeSignatures(v.signature, low.signature);
        if lower.Failure? then Failure(lower.error)
        else
          var signature := MergeSignatures(lower.value, high.signature);
          if signature.Failure? then Failure(signature.error)
          else if low.constant.Some? && high.constant.Some? && low.constant.value > high.constant.value then
            Failure(ClampBounds)
          else Success(Inference(StaticType(Number, unit.value), signature.value, None))
  }

  function InferCall(fn: string, args: seq<Inference>): Inferred
  {
    if exists i :: 0 <= i < |args| && args[i].typ.kind != Number then Failure(NeedsNumber)
    else if fn == "abs" then
      if |args| != 1 then Failure(WrongArity(fn))
      else if args[0].constant.Some? then Success(args[0].(constant := Some(Absolute(args[0].constant.value))))
      else Success(args[0])
    else if fn == "min" || fn == "max" then
      if |args| != 2 then Failure(WrongArity(fn)) else InferExtremum(fn, args[0], args[1])
    else if fn == "clamp" then
      if |args| != 3 then Failure(WrongArity(fn)) else InferClamp(args[0], args[1], args[2])
    else Failure(UnknownFunction(fn))
  }

  function Infer(n: Node, env: Environment): Inferred
    decreases n, 1
  {
    match n
    case Num(v) => Success(Inference(DIMENSIONLESS, "", Some(v)))
    case Ref(name) =>
      var b := Resolve(env, name);
      if b.Failure? then Failure(b.error)
      else Success(Inference(b.value.typ, b.value.signature, None))
    case Unary(op, v) =>
      var i := Infer(v, env);
      if i.Failure? then i else InferUnary(op, i.value)
    case Binary(op, l, r) =>
      var i := Infer(l, env);
      if i.Failure? then i
      else
        var j := Infer(r, env);
        if j.Failure? then j else InferBinary(op, i.value, j.value)
    case Call(fn, args) =>
      var many := InferAll(args, env);
      if many.Failure? then Failure(many.error) else InferCall(fn, many.value)
  }

  /** Arguments left to right, stopping at the first failure. */
  function InferAll(ns: seq<Node>, env: Environment): (r: Result<seq<Inference>, TypeError>)
    ensures r.Success? ==> |r.value| == |ns|
    decreases ns, 0
  {
    if ns == [] then Success([])
    else
      var first := Infer(ns[0], env);
      if first.Failure? then Failure(first.error)
      else
        var others := InferAll(ns[1..], env);
        if others.Failure? then others else Success([first.value] + others.value)
  }

  // ----- the memoising method -----

  /** Every recorded inference is the one the function gives. */
  ghost predicate Sound(inferred: map<Node, Inference>, env: Environment)
  {
    forall n :: n in inferred ==> Infer(n, env) == Success(inferred[n])
  }

  /** The whole tree has been recorded. */
  ghost predicate Records(inferred: map<Node, Inference>, n: Node)
  {
    && n in inferred
    && match n
       case Num(_) => true
       case Ref(_) => true
       case Unary(_, v) => Records(inferred, v)
       case Binary(_, l, r) => Records(inferred, l) && Records(inferred, r)
       case Call(_, args) => forall i :: 0 <= i < |args| ==> Records(inferred, args[i])
  }

  ghost predicate Closed(inferred: map<Node, Inference>)
  {
    forall n :: n in inferred ==> Records(inferred, n)
  }
}
