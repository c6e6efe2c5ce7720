/** Re-association of two chained operators, `x op (y inner z)` to `(x op y) inner z`: exactly
    when it still types, and exactly when it keeps the value. */
module FormulaRotation {
  import opened FormulaSyntax
  import opened FormulaTyping
  import opened FormulaEvaluation
  import opened FormulaSoundness
  import opened Results
  import opened Strings
  import opened Units

  /** Two adjacent operators whose chain the printer flattens to the left. */
  predicate Flattened(op: BinaryOp, inner: BinaryOp)
  {
    !RaisesRight(op) && Level(op) == Level(inner)
  }

  // ----- types -----

  /** A quantity times a ratio must not become a product of quantities. */
  predicate TypesSafely(op: BinaryOp, inner: BinaryOp, i: Inference, j: Inference)
  {
    op == Mul && inner == Div ==> i.typ.unit == "" || j.typ.unit == ""
  }

  lemma ProductReassociates(x: real, y: real, z: real)
    ensures Product(x, Product(y, z)) == Product(Product(x, y), z)
  {
  }

  lemma QuotientReassociates(x: real, y: real, z: real)
    requires z != 0.0
    ensures Product(x, Quotient(y, z)) == Quotient(Product(x, y), z)
  {
    var q := y / z;
    assert q * z == y;
    assert (x * q) * z == x * (q * z);
  }

  lemma FoldReassociates(op: BinaryOp, inner: BinaryOp, a: Option<real>, b: Option<real>, c: Option<real>)
    requires Flattened(op, inner)
    requires inner == Div ==> c != Some(0.0)
    ensures FoldConstant(op, a, FoldConstant(inner, b, c)) == FoldConstant(inner, FoldConstant(op, a, b), c)
  {
    hide Product, Quotient;
    if a.Some? && b.Some? && c.Some? {
      var x, y, z := a.value, b.value, c.value;
      if inner == Mul {
        ProductReassociates(x, y, z);
      } else if inner == Div {
        QuotientReassociates(x, y, z);
      }
    }
  }

  lemma SignaturesReassociate(a: string, b: string, c: string)
    requires MergeSignatures(b, c).Success? && MergeSignatures(a, MergeSignatures(b, c).value).Success?
    ensures MergeSignatures(a, b).Success?
    ensures MergeSignatures(MergeSignatures(a, b).value, c) == MergeSignatures(a, MergeSignatures(b, c).value)
  {
  }

  lemma UnitsAreTrimmed(i: Inference)
    requires WellFormed(i)
    ensures TrimSpace(i.typ.unit) == i.typ.unit
  {
    TrimmedIsUnchanged(i.typ.unit);
  }

  lemma SumUnitsReassociate(i: Inference, j: Inference, k: Inference, m: Inference, p: Inference)
    requires WellFormed(i) && WellFormed(j) && WellFormed(k) && WellFormed(m)
    requires CompatibleUnit(j, k) == Success(m.typ.unit) && m.typ.kind == Number
    requires m.constant.Some? <==> j.constant.Some? && k.constant.Some?
    requires p.typ.kind == Number && (p.constant.Some? <==> i.constant.Some? && j.constant.Some?)
    requires CompatibleUnit(i, m).Success?
    ensures CompatibleUnit(i, j).Success?
    ensures CompatibleUnit(i, j) == Success(p.typ.unit) ==> CompatibleUnit(p, k) == CompatibleUnit(i, m)
  {
    UnitsAreTrimmed(i);
    UnitsAreTrimmed(j);
    UnitsAreTrimmed(k);
    UnitsAreTrimmed(m);
    hide TrimSpace, AreCompatible;
    CompatibleIsEquivalence(i.typ.unit, j.typ.unit, k.typ.unit);
    CompatibleIsEquivalence(j.typ.unit, k.typ.unit, i.typ.unit);
  }

  lemma ProductUnitsReassociate(inner: BinaryOp, i: Inference, j: Inference, k: Inference, m: Inference, p: Inference)
    requires WellFormed(i) && WellFormed(j) && WellFormed(k) && WellFormed(m)
    requires inner == Mul || inner == Div
    requires m.typ.kind == p.typ.kind == Number
    requires (if inner == Mul then ProductUnit(j, k) else QuotientUnit(j, k)) == Success(m.typ.unit)
    requires ProductUnit(i, m).Success?
    ensures ProductUnit(i, j).Success? <==> TypesSafely(Mul, inner, i, j)
    ensures ProductUnit(i, j) == Success(p.typ.unit) ==>
              (if inner == Mul then ProductUnit(p, k) else QuotientUnit(p, k)) == ProductUnit(i, m)
  {
    UnitsAreTrimmed(i);
    UnitsAreTrimmed(j);
    UnitsAreTrimmed(k);
    hide TrimSpace, AreCompatible;
  }

  lemma SumTypes(inner: BinaryOp, i: Inference, j: Inference, k: Inference)
    requires inner == Add || inner == Sub
    requires WellFormed(i) && WellFormed(j) && WellFormed(k)
    requires InferBinary(inner, j, k).Success? && InferBinary(Add, i, InferBinary(inner, j, k).value).Success?
    ensures InferBinary(Add, i, j).Success?
    ensures InferBinary(inner, InferBinary(Add, i, j).value, k) == InferBinary(Add, i, InferBinary(inner, j, k).value)
  {
    var m := InferBinary(inner, j, k).value;
    BinaryShape(inner, j, k);
    SignaturesReassociate(i.signature, j.signature, k.signature);
    FoldReassociates(Add, inner, i.constant, j.constant, k.constant);
    var unit := if CompatibleUnit(i, j).Success? then CompatibleUnit(i, j).value else "";
    SumUnitsReassociate(i, j, k, m, Inference(StaticType(Number, unit), "", FoldConstant(Add, i.constant, j.constant)));
    var p := InferBinary(Add, i, j).value;
    SumUnitsReassociate(i, j, k, m, p);
    hide CompatibleUnit, MergeSignatures, WellFormed;
  }

  lemma ProductTypes(inner: BinaryOp, i: Inference, j: Inference, k: Inference)
    requires inner == Mul || inner == Div
    requires WellFormed(i) && WellFormed(j) && WellFormed(k)
    requires InferBinary(inner, j, k).Success? && InferBinary(Mul, i, InferBinary(inner, j, k).value).Success?
    ensures InferBinary(Mul, i, j).Success? <==> TypesSafely(Mul, inner, i, j)
    ensures TypesSafely(Mul, inner, i, j) ==>
              InferBinary(inner, InferBinary(Mul, i, j).value, k) == InferBinary(Mul, i, InferBinary(inner, j, k).value)
  {
    var m := InferBinary(inner, j, k).value;
    BinaryShape(inner, j, k);
    SignaturesReassociate(i.signature, j.signature, k.signature);
    FoldReassociates(Mul, inner, i.constant, j.constant, k.constant);
    var unit := if ProductUnit(i, j).Success? then ProductUnit(i, j).value else "";
    ProductUnitsReassociate(inner, i, j, k, m, Inference(StaticType(Number, unit), "", None));
    hide MergeSignatures, WellFormed, TypesSafely, FoldConstant;
    if InferBinary(Mul, i, j).Success? {
      ProductUnitsReassociate(inner, i, j, k, m, InferBinary(Mul, i, j).value);
      hide ProductUnit, QuotientUnit;
    }
  }

  lemma LogicTypes(op: BinaryOp, i: Inference, j: Inference, k: Inference)
    requires op == And || op == Or
    requires InferBinary(op, j, k).Success? && InferBinary(op, i, InferBinary(op, j, k).value).Success?
    ensures InferBinary(op, i, j).Success?
    ensures InferBinary(op, InferBinary(op, i, j).value, k) == InferBinary(op, i, InferBinary(op, j, k).value)
  {
    SignaturesReassociate(i.signature, j.signature, k.signature);
    hide MergeSignatures;
  }

  /** A rotation of a typed tree types exactly if it does so safely, and then as before. */
  lemma RotationTypes(op: BinaryOp, inner: BinaryOp, i: Inference, j: Inference, k: Inference)
    requires Flattened(op, inner) && WellFormed(i) && WellFormed(j) && WellFormed(k)
    requires InferBinary(inner, j, k).Success? && InferBinary(op, i, InferBinary(inner, j, k).value).Success?
    ensures InferBinary(op, i, j).Success? <==> TypesSafely(op, inner, i, j)
    ensures TypesSafely(op, inner, i, j) ==>
              InferBinary(inner, InferBinary(op, i, j).value, k) == InferBinary(op, i, InferBinary(inner, j, k).value)
  {
    hide InferBinary, WellFormed;
    if op == Add {
      SumTypes(inner, i, j, k);
    } else if op == Mul {
      ProductTypes(inner, i, j, k);
    } else {
      LogicTypes(op, i, j, k);
    }
  }

  // ----- values -----

  /** Converting between the units changes no number. */
  predicate SameScale(a: string, b: string)
  {
    Factor(FamilyOf(a), a) == Factor(FamilyOf(a), b)
  }

  /** A constant next to a quantity is read in the same scale before and after. */
  predicate KeepsScale(target: string, c: Inference, quantity: Inference)
  {
    c.constant.Some? && c.constant.value != 0.0 && quantity.typ.unit != "" ==> SameScale(quantity.typ.unit, target)
  }

  /** In a sum in some unit, a constant and a quantity are not read in two different scales. */
  predicate ValuesSafely(op: BinaryOp, i: Inference, j: Inference, k: Inference)
  {
    op == Add && i.typ.unit != "" ==> KeepsScale(i.typ.unit, j, k) && KeepsScale(i.typ.unit, k, j)
  }

  function Signed(op: BinaryOp, x: real, y: real): real { if op == Sub then x - y else x + y }

  /** A number read in a unit, as sums read their operands. */
  function ReadIn(x: real, from: string, to: string): real
  {
    if to == "" || from == "" || from == to then x else Convert(x, from, to)
  }

  lemma ScaleIsLinear(op: BinaryOp, x: real, y: real, p: real, q: real)
    requires q > 0.0
    ensures Signed(op, x, y) * p / q == Signed(op, x * p / q, y * p / q)
  {
    assert Signed(op, x, y) * p == Signed(op, x * p, y * p);
  }

  lemma ScaleFixes(c: real, p: real, q: real)
    requires q > 0.0
    ensures c * p / q == c <==> c == 0.0 || p == q
  {
    var r := c * p / q;
    assert r * q == c * p;
    if r == c && c != 0.0 {
      assert c * (p - q) == 0.0;
    }
  }

  lemma ConvertIsLinear(op: BinaryOp, x: real, y: real, from: string, to: string)
    ensures Convert(Signed(op, x, y), from, to) == Signed(op, Convert(x, from, to), Convert(y, from, to))
  {
    hide FamilyOf, Factor;
    ScaleIsLinear(op, x, y, Factor(FamilyOf(from), from), Factor(FamilyOf(from), to));
  }

  lemma ReadIsLinear(op: BinaryOp, x: real, y: real, from: string, to: string)
    ensures ReadIn(Signed(op, x, y), from, to) == Signed(op, ReadIn(x, from, to), ReadIn(y, from, to))
  {
    ConvertIsLinear(op, x, y, from, to);
    hide Convert, Signed;
  }

  lemma ReadFixes(c: real, from: string, to: string)
    ensures from != "" && to != "" ==> (ReadIn(c, from, to) == c <==> c == 0.0 || SameScale(from, to))
  {
    hide FamilyOf, Factor;
    ScaleFixes(c, Factor(FamilyOf(from), from), Factor(FamilyOf(from), to));
  }

  lemma ReadComposes(x: real, a: string, b: string, c: string)
    requires AreCompatible(a, b) && AreCompatible(b, c)
    ensures ReadIn(ReadIn(x, a, b), b, c) == ReadIn(x, a, c)
  {
    CompatibleIsEquivalence(a, b, c);
    hide AreCompatible, Convert;
    ConvertComposes(x, a, b, c);
    ConvertInverts(x, a, b);
  }

  lemma ReadsIn(v: Value, target: string)
    requires v.typ.kind == Number
    requires target == "" || v.typ.unit == "" || v.typ.unit == target || AreCompatible(v.typ.unit, target)
    ensures NumberInUnit(v, target) == Success(ReadIn(v.number, v.typ.unit, target))
  {
  }

  lemma SumIsRead(op: BinaryOp, left: Inference, right: Inference, l: Value, r: Value)
    requires op == Add || op == Sub
    requires WellFormed(left) && WellFormed(right) && InferBinary(op, left, right).Success?
    requires HasType(l, left) && HasType(r, right) && !l.missing && !r.missing
    ensures var typ := InferBinary(op, left, right).value.typ;
            EvalBinary(op, typ, l, r) ==
            Success(Numeric(typ, Signed(op, ReadIn(l.number, left.typ.unit, typ.unit), ReadIn(r.number, right.typ.unit, typ.unit))))
  {
    CompatibleUnitShape(left, right);
    var typ := InferBinary(op, left, right).value.typ;
    hide AreCompatible, CompatibleUnit;
    ReadsIn(l, typ.unit);
    ReadsIn(r, typ.unit);
    hide ReadIn, NumberInUnit;
  }

  /** The unit of a sum: that of its first operand in one. */
  lemma SumUnit(op: BinaryOp, left: Inference, right: Inference)
    requires op == Add || op == Sub
    requires WellFormed(left) && WellFormed(right) && InferBinary(op, left, right).Success?
    ensures var u := InferBinary(op, left, right).value.typ.unit;
            && u == (if left.typ.unit != "" then left.typ.unit else right.typ.unit)
            && (left.typ.unit == "" && right.typ.unit != "" ==> left.constant.Some?)
            && (right.typ.unit == "" && left.typ.unit != "" ==> right.constant.Some?)
            && (left.typ.unit != "" && right.typ.unit != "" ==> AreCompatible(left.typ.unit, right.typ.unit))
  {
    UnitsAreTrimmed(left);
    UnitsAreTrimmed(right);
    hide AreCompatible;
  }

  /** The numbers of both sums, given the units of their operands. */
  lemma SumsAgree(inner: BinaryOp, u: string, v: string, w: string, x: real, y: real, z: real)
    requires u != "" && v != "" ==> AreCompatible(u, v)
    requires v != "" && w != "" ==> AreCompatible(v, w)
    ensures var m := if v != "" then v else w;
            var p := if u != "" then u else v;
            var o := if u != "" then u else m;
            Signed(Add, ReadIn(x, u, o), ReadIn(Signed(inner, ReadIn(y, v, m), ReadIn(z, w, m)), m, o)) ==
            Signed(inner, ReadIn(Signed(Add, ReadIn(x, u, p), ReadIn(y, v, p)), p, o), ReadIn(z, w, o)) <==>
            || u == ""
            || ((v == "" && w != "" ==> y == 0.0 || SameScale(w, u)) && (w == "" && v != "" ==> z == 0.0 || SameScale(v, u)))
  {
    CompatibleIsEquivalence(u, v, u);
    CompatibleIsEquivalence(v, w, v);
    if u != "" {
      var m := if v != "" then v else w;
      ReadIsLinear(inner, ReadIn(y, v, m), ReadIn(z, w, m), m, u);
      ReadFixes(y, w, u);
      ReadFixes(z, v, u);
      if v != "" && w != "" { ReadComposes(z, w, v, u); }
    }
    hide AreCompatible, Convert, SameScale;
  }

  /** `x op (y inner z)`. */
  function Nested(op: BinaryOp, inner: BinaryOp, i: Inference, j: Inference, k: Inference, x: Value, y: Value, z: Value): Evaluated
    requires InferBinary(inner, j, k).Success? && InferBinary(op, i, InferBinary(inner, j, k).value).Success?
  {
    var m := InferBinary(inner, j, k).value;
    var r := EvalBinary(inner, m.typ, y, z);
    if r.Failure? then r else EvalBinary(op, InferBinary(op, i, m).value.typ, x, r.value)
  }

  /** `(x op y) inner z`. */
  function Rotated(op: BinaryOp, inner: BinaryOp, i: Inference, j: Inference, k: Inference, x: Value, y: Value, z: Value): Evaluated
    requires InferBinary(op, i, j).Success? && InferBinary(inner, InferBinary(op, i, j).value, k).Success?
  {
    var p := InferBinary(op, i, j).value;
    var l := EvalBinary(op, p.typ, x, y);
    if l.Failure? then l else EvalBinary(inner, InferBinary(inner, p, k).value.typ, l.value, z)
  }

  /** The values of three operands whose nesting is typed. */
  predicate Operands(op: BinaryOp, inner: BinaryOp, i: Inference, j: Inference, k: Inference, x: Value, y: Value, z: Value)
  {
    && Flattened(op, inner) && WellFormed(i) && WellFormed(j) && WellFormed(k)
    && HasType(x, i) && HasType(y, j) && HasType(z, k)
    && InferBinary(inner, j, k).Success? && InferBinary(op, i, InferBinary(inner, j, k).value).Success?
  }

  lemma NestedSum(inner: BinaryOp, i: Inference, j: Inference, k: Inference, x: Value, y: Value, z: Value)
    requires Operands(Add, inner, i, j, k, x, y, z) && !x.missing && !y.missing && !z.missing
    ensures var m := InferBinary(inner, j, k).value;
            var o := InferBinary(Add, i, m).value.typ;
            Nested(Add, inner, i, j, k, x, y, z) ==
            Success(Numeric(o, Signed(Add, ReadIn(x.number, i.typ.unit, o.unit),
                                      ReadIn(Signed(inner, ReadIn(y.number, j.typ.unit, m.typ.unit), ReadIn(z.number, k.typ.unit, m.typ.unit)),
                                             m.typ.unit, o.unit))))
  {
    var m := InferBinary(inner, j, k).value;
    SumIsRead(inner, j, k, y, z);
    BinarySound(inner, j, k, y, z);
    BinaryShape(inner, j, k);
    hide InferBinary, EvalBinary, ReadIn, Signed, WellFormed;
    SumIsRead(Add, i, m, x, EvalBinary(inner, m.typ, y, z).value);
  }

  lemma RotatedSum(inner: BinaryOp, i: Inference, j: Inference, k: Inference, x: Value, y: Value, z: Value)
    requires inner == Add || inner == Sub
    requires WellFormed(i) && WellFormed(j) && WellFormed(k) && HasType(x, i) && HasType(y, j) && HasType(z, k)
    requires !x.missing && !y.missing && !z.missing
    requires InferBinary(Add, i, j).Success? && InferBinary(inner, InferBinary(Add, i, j).value, k).Success?
    ensures var p := InferBinary(Add, i, j).value;
            var o := InferBinary(inner, p, k).value.typ;
            Rotated(Add, inner, i, j, k, x, y, z) ==
            Success(Numeric(o, Signed(inner, ReadIn(Signed(Add, ReadIn(x.number, i.typ.unit, p.typ.unit), ReadIn(y.number, j.typ.unit, p.typ.unit)),
                                                    p.typ.unit, o.unit),
                                      ReadIn(z.number, k.typ.unit, o.unit))))
  {
    var p := InferBinary(Add, i, j).value;
    SumIsRead(Add, i, j, x, y);
    BinarySound(Add, i, j, x, y);
    BinaryShape(Add, i, j);
    hide InferBinary, EvalBinary, ReadIn, Signed, WellFormed;
    SumIsRead(inner, p, k, EvalBinary(Add, p.typ, x, y).value, z);
  }

  lemma SumValues(inner: BinaryOp, i: Inference, j: Inference, k: Inference, x: Value, y: Value, z: Value)
    requires Operands(Add, inner, i, j, k, x, y, z) && !x.missing && !y.missing && !z.missing
    requires InferBinary(Add, i, j).Success? && InferBinary(inner, InferBinary(Add, i, j).value, k).Success?
    ensures Nested(Add, inner, i, j, k, x, y, z) == Rotated(Add, inner, i, j, k, x, y, z) <==> ValuesSafely(Add, i, j, k)
  {
    SumTypes(inner, i, j, k);
    NestedSum(inner, i, j, k, x, y, z);
    RotatedSum(inner, i, j, k, x, y, z);
    SumUnit(inner, j, k);
    SumUnit(Add, i, j);
    BinaryShape(inner, j, k);
    SumUnit(Add, i, InferBinary(inner, j, k).value);
    SumsAgree(inner, i.typ.unit, j.typ.unit, k.typ.unit, x.number, y.number, z.number);
    hide Nested, Rotated, InferBinary, EvalBinary, ReadIn, Signed, AreCompatible, SameScale;
  }

  /** The number a quotient divides by. */
  function Divisor(unit: string, r: real, from: string): real
  {
    if unit == "" then r else ReadIn(r, from, unit)
  }

  lemma ProductIsRead(op: BinaryOp, left: Inference, right: Inference, l: Value, r: Value)
    requires op == Mul || op == Div
    requires WellFormed(left) && WellFormed(right) && InferBinary(op, left, right).Success?
    requires HasType(l, left) && HasType(r, right) && !l.missing && !r.missing
    ensures var typ := InferBinary(op, left, right).value.typ;
            var d := Divisor(left.typ.unit, r.number, right.typ.unit);
            EvalBinary(op, typ, l, r) ==
            if op == Mul then Success(Numeric(typ, Product(l.number, r.number)))
            else if d == 0.0 then Success(Absent(typ))
            else Success(Numeric(typ, Quotient(l.number, d)))
  {
    UnitsAreTrimmed(left);
    UnitsAreTrimmed(right);
    CompatibleIsEquivalence(left.typ.unit, right.typ.unit, left.typ.unit);
    ConvertKeepsOrder(r.number, 0.0, right.typ.unit, left.typ.unit);
    hide AreCompatible, Convert, Product, Quotient, TrimSpace;
  }

  lemma ProductUnits(inner: BinaryOp, i: Inference, j: Inference, k: Inference)
    requires inner == Mul || inner == Div
    requires WellFormed(i) && WellFormed(j) && WellFormed(k) && TypesSafely(Mul, inner, i, j)
    requires InferBinary(inner, j, k).Success? && InferBinary(Mul, i, j).Success?
    ensures inner == Div ==>
              forall z :: Divisor(j.typ.unit, z, k.typ.unit) == Divisor(InferBinary(Mul, i, j).value.typ.unit, z, k.typ.unit)
  {
    UnitsAreTrimmed(j);
    UnitsAreTrimmed(k);
    hide AreCompatible, Convert, TrimSpace, MergeSignatures, FoldConstant;
  }

  lemma ProductValues(inner: BinaryOp, i: Inference, j: Inference, k: Inference, x: Value, y: Value, z: Value)
    requires Operands(Mul, inner, i, j, k, x, y, z) && !x.missing && !y.missing && !z.missing
    requires TypesSafely(Mul, inner, i, j)
    requires InferBinary(Mul, i, j).Success? && InferBinary(inner, InferBinary(Mul, i, j).value, k).Success?
    ensures Nested(Mul, inner, i, j, k, x, y, z) == Rotated(Mul, inner, i, j, k, x, y, z)
  {
    ProductTypes(inner, i, j, k);
    ProductUnits(inner, i, j, k);
    var m, p := InferBinary(inner, j, k).value, InferBinary(Mul, i, j).value;
    BinarySound(inner, j, k, y, z);
    BinarySound(Mul, i, j, x, y);
    BinaryShape(inner, j, k);
    BinaryShape(Mul, i, j);
    var d := Divisor(j.typ.unit, z.number, k.typ.unit);
    ProductReassociates(x.number, y.number, z.number);
    if d != 0.0 { QuotientReassociates(x.number, y.number, d); }
    ProductIsRead(inner, j, k, y, z);
    ProductIsRead(Mul, i, j, x, y);
    var r, l := EvalBinary(inner, m.typ, y, z).value, EvalBinary(Mul, p.typ, x, y).value;
    assert !l.missing;
    ProductIsRead(inner, p, k, l, z);
    if !r.missing {
      ProductIsRead(Mul, i, m, x, r);
      hide InferBinary, EvalBinary, Divisor, Product, Quotient, WellFormed;
    }
  }

  lemma LogicValues(op: BinaryOp, i: Inference, j: Inference, k: Inference, x: Value, y: Value, z: Value)
    requires op == And || op == Or
    requires Operands(op, op, i, j, k, x, y, z) && InferBinary(op, i, j).Success?
    requires InferBinary(op, InferBinary(op, i, j).value, k).Success?
    ensures Nested(op, op, i, j, k, x, y, z) == Rotated(op, op, i, j, k, x, y, z)
  {
  }

  lemma MissingOperands(op: BinaryOp, inner: BinaryOp, i: Inference, j: Inference, k: Inference, x: Value, y: Value, z: Value)
    requires Operands(op, inner, i, j, k, x, y, z) && (x.missing || y.missing || z.missing)
    requires InferBinary(op, i, j).Success? && InferBinary(inner, InferBinary(op, i, j).value, k).Success?
    requires InferBinary(inner, InferBinary(op, i, j).value, k) == InferBinary(op, i, InferBinary(inner, j, k).value)
    ensures Nested(op, inner, i, j, k, x, y, z) == Rotated(op, inner, i, j, k, x, y, z)
  {
    BinarySound(inner, j, k, y, z);
    BinarySound(op, i, j, x, y);
    hide InferBinary, EvalArithmetic, EvalComparison, WellFormed;
  }

  /** A rotation that types keeps the value exactly if an operand is missing or no constant
      changes its scale. */
  lemma RotationValues(op: BinaryOp, inner: BinaryOp, i: Inference, j: Inference, k: Inference, x: Value, y: Value, z: Value)
    requires Operands(op, inner, i, j, k, x, y, z) && TypesSafely(op, inner, i, j)
    requires InferBinary(op, i, j).Success? && InferBinary(inner, InferBinary(op, i, j).value, k).Success?
    ensures Nested(op, inner, i, j, k, x, y, z) == Rotated(op, inner, i, j, k, x, y, z) <==>
            x.missing || y.missing || z.missing || ValuesSafely(op, i, j, k)
  {
    RotationTypes(op, inner, i, j, k);
    hide InferBinary, EvalBinary, Nested, Rotated, WellFormed, HasType, TypesSafely, KeepsScale;
    if x.missing || y.missing || z.missing {
      MissingOperands(op, inner, i, j, k, x, y, z);
    } else if op == Add {
      SumValues(inner, i, j, k, x, y, z);
    } else if op == Mul {
      ProductValues(inner, i, j, k, x, y, z);
    } else {
      LogicValues(op, i, j, k, x, y, z);
    }
  }
}
