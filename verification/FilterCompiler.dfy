/** Compiles filter trees to SQL conditions with positional arguments. */
module FilterCompiler {
  import opened Fields
  import opened Filters
  import opened FilterSql
  import opened FieldCatalog
  import opened Results

  datatype CompileError = Unresolved(error: ResolveError) | BadScope | UnsupportedNode | UnsupportedOperator

  datatype Compiled = Compiled(sql: Sql, args: Args)

  // ----- trace scopes -----

  datatype TraceScope = RootScope | EntrypointScope

  /** Lower case as far as the scope names can tell: the dotted capital I also lowers to i. */
  function Lower(c: char): char
  {
    if 'A' <= c <= 'Z' then 'a' + (c - 'A') else if c == '\U{0130}' then 'i' else c
  }

  function ToLower(s: string): (lower: string)
    ensures |lower| == |s| && forall i :: 0 <= i < |s| ==> lower[i] == Lower(s[i])
  {
    seq(|s|, i requires 0 <= i < |s| => Lower(s[i]))
  }

  function ScopeOf(signal: Signal, field: FieldRef): Option<TraceScope>
  {
    if signal != Traces || field.context != Span then None
    else if ToLower(field.name) == "isroot" then Some(RootScope)
    else if ToLower(field.name) == "isentrypoint" then Some(EntrypointScope)
    else None
  }

  function Text(column: string, relation: Relation, text: string): Sql
  {
    Compare(Column(column), relation, Literal(Str(text)))
  }

  function CompileScope(scope: TraceScope, p: FilterNode): Result<Compiled, CompileError>
    requires p.Predicate?
  {
    if p.field.typ != BoolType then Failure(BadScope)
    else if p.op != Equal || p.operand.kind != BoolKind || !p.operand.truth then Failure(BadScope)
    else match scope
      case RootScope => Success(Compiled(Text("parent_span_id", Eq, ""), []))
      case EntrypointScope =>
        var kinds := Member(Column("kind"), [Literal(Num(Finite(2.0))), Literal(Num(Finite(5.0)))], false);
        Success(Compiled(And([Text("parent_span_id", Ne, ""), kinds, Text("is_remote", Eq, "yes")]), []))
  }

  // ----- predicates -----

  function RelationOf(op: FilterOp): Relation
    requires IsScalarOp(op)
  {
    match op
    case Equal => Eq
    case NotEqual => Ne
    case GreaterThan => Gt
    case GreaterEq => Ge
    case LessThan => Lt
    case LessEq => Le
  }

  function ScalarOf(v: Operand): Scalar
  {
    match v.kind
    case StringKind => Str(v.text)
    case NumberKind => Num(v.number)
    case BoolKind => Boolean(v.truth)
    case _ => Null
  }

  /** Every list of the operand, whatever its kind says. */
  function ListValues(v: Operand): Args
  {
    StrScalars(v.strings) + NumScalars(v.numbers) + BoolScalars(v.bools)
  }

  function StrScalars(xs: seq<string>): Args { seq(|xs|, i requires 0 <= i < |xs| => Str(xs[i])) }

  function NumScalars(xs: seq<Float>): Args { seq(|xs|, i requires 0 <= i < |xs| => Num(xs[i])) }

  function BoolScalars(xs: seq<bool>): Args { seq(|xs|, i requires 0 <= i < |xs| => Boolean(xs[i])) }

  function Slots(n: nat): (slots: seq<Expr>)
    ensures |slots| == n
  {
    if n == 0 then [] else Slots(n - 1) + [Slot]
  }

  function Guarded(field: ResolvedField, condition: Sql, args: Args, requireExistence: bool): Compiled
  {
    if field.requiresExistence && requireExistence then
      Compiled(And([field.existsSql, condition]), field.existsArgs + (field.args + args))
    else Compiled(condition, field.args + args)
  }

  function CompilePredicate(field: ResolvedField, p: FilterNode): Result<Compiled, CompileError>
    requires p.Predicate?
  {
    var pattern := [Str(p.operand.text)];
    match p.op
    case Equal | NotEqual | GreaterThan | GreaterEq | LessThan | LessEq =>
      var value := if field.castComparison then Cast(Slot) else Slot;
      Success(Guarded(field, Compare(field.sql, RelationOf(p.op), value), [ScalarOf(p.operand)], p.op != NotEqual))
    case In | NotIn =>
      var values := ListValues(p.operand);
      Success(Guarded(field, Member(field.sql, Slots(|values|), p.op == NotIn), values, p.op == In))
    case Exists => Success(Compiled(field.existsSql, field.existsArgs))
    case NotExists => Success(Compiled(Not(field.existsSql), field.existsArgs))
    case Contains => Success(Guarded(field, Position(field.sql, Slot, true), pattern, true))
    case NotContains => Success(Guarded(field, Position(field.sql, Slot, false), pattern, false))
    case Like => Success(Guarded(field, Matches(LikePattern, field.sql, Slot), pattern, true))
    case NotLike => Success(Guarded(field, Not(Matches(LikePattern, field.sql, Slot)), pattern, false))
    case ILike => Success(Guarded(field, Matches(ILikePattern, field.sql, Slot), pattern, true))
    case NotILike => Success(Guarded(field, Not(Matches(ILikePattern, field.sql, Slot)), pattern, false))
    case Regexp => Success(Guarded(field, Matches(RegexpPattern, field.sql, Slot), pattern, true))
    case NotRegexp => Success(Guarded(field, Not(Matches(RegexpPattern, field.sql, Slot)), pattern, false))
    case UnknownOp => Failure(UnsupportedOperator)
  }

  function CompileLeaf(signal: Signal, p: FilterNode): Result<Compiled, CompileError>
    requires p.Predicate?
  {
    var scope := ScopeOf(signal, p.field);
    if scope.Some? then CompileScope(scope.value, p)
    else
      var loc := Locate(signal, p.field);
      if loc.Failure? then Failure(Unresolved(loc.error)) else CompilePredicate(Render(loc.value), p)
  }

  // ----- trees -----

  predicate IsMetric(signal: Signal) { signal == Metrics || signal == Meter }

  /** Parts joined by one operator; no parts leave an empty text. */
  function Join(op: LogicalOp, parts: seq<Sql>): Sql
  {
    if parts == [] then Blank
    else if op == AnyOf then Or(parts)
    else And(parts)
  }

  function Compile(signal: Signal, node: FilterNode): Result<Compiled, CompileError>
    decreases node, 1
  {
    match node
    case NilFilter => if IsMetric(signal) then Success(Compiled(Blank, [])) else Failure(UnsupportedNode)
    case Logical(op, items) =>
      var all := CompileAll(signal, items);
      if all.Failure? then Failure(all.error) else Success(Compiled(Join(op, all.value.0), all.value.1))
    case Predicate(_, _, _) => CompileLeaf(signal, node)
  }

  function CompileAll(signal: Signal, items: seq<FilterNode>): (r: Result<(seq<Sql>, Args), CompileError>)
    ensures r.Success? ==> |r.value.0| == |items|
    decreases items, 0
  {
    if items == [] then Success(([], []))
    else
      var last := |items| - 1;
      var before := CompileAll(signal, items[..last]);
      if before.Failure? then before
      else
        var c := Compile(signal, items[last]);
        if c.Failure? then Failure(c.error)
        else Success((before.value.0 + [c.value.sql], before.value.1 + c.value.args))
  }

  /** Compiles item by item, collecting the parts and their arguments. */
  method CompileFilter(signal: Signal, node: FilterNode) returns (r: Result<Compiled, CompileError>)
    ensures r == Compile(signal, node)
    decreases node
  {
    match node {
      case NilFilter =>
        r := if IsMetric(signal) then Success(Compiled(Blank, [])) else Failure(UnsupportedNode);
      case Predicate(_, _, _) =>
        r := CompileLeaf(signal, node);
      case Logical(op, items) =>
        CompileLogical(signal, op, items);
        assert items[..0] == [];
        hide Compile, CompileLeaf, CompileAll, Join;
        var parts, args := [], [];
        for i := 0 to |items|
          invariant CompileAll(signal, items[..i]) == Success((parts, args))
        {
          CompileAllNext(signal, items, i);
          var part: Result<Compiled, CompileError> := CompileFilter(signal, items[i]);
          if part.Failure? {
            CompileAllFails(signal, items, i + 1);
            return Failure(part.error);
          }
          parts := parts + [part.value.sql];
          args := args + part.value.args;
        }
        assert items[..|items|] == items;
        r := Success(Compiled(Join(op, parts), args));
    }
  }

  lemma CompileLogical(signal: Signal, op: LogicalOp, items: seq<FilterNode>)
    ensures Compile(signal, Logical(op, items)) ==
              var all := CompileAll(signal, items);
              if all.Failure? then Failure(all.error) else Success(Compiled(Join(op, all.value.0), all.value.1))
    ensures CompileAll(signal, []) == Success(([], []))
  {
  }

  lemma CompileAllNext(signal: Signal, items: seq<FilterNode>, i: nat)
    requires i < |items|
    ensures CompileAll(signal, items[..i + 1]) ==
              var before := CompileAll(signal, items[..i]);
              var c := Compile(signal, items[i]);
              if before.Failure? then before
              else if c.Failure? then Failure(c.error)
              else Success((before.value.0 + [c.value.sql], before.value.1 + c.value.args))
  {
    hide Compile;
    assert items[..i + 1][..i] == items[..i];
  }

  lemma {:induction false} CompileAllFails(signal: Signal, items: seq<FilterNode>, k: nat)
    requires k <= |items| && CompileAll(signal, items[..k]).Failure?
    ensures CompileAll(signal, items) == CompileAll(signal, items[..k])
    decreases |items|
  {
    hide Compile;
    if k == |items| {
      assert items[..k] == items;
    } else {
      assert items[..|items| - 1][..k] == items[..k];
      CompileAllFails(signal, items[..|items| - 1], k);
    }
  }
}
