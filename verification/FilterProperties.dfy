/** What follows from the meaning of filters: presence, negation, missing items, what compiles,
    and filters that select one histogram bucket. */
module FilterProperties {
  import opened Fields
  import opened Filters
  import opened FilterSql
  import opened FieldCatalog
  import opened FilterCompiler
  import opened FilterMeaning
  import opened Results
  import opened Strings

  // ----- presence and negation -----

  /** The store selects the row by the condition compiled from a filter. */
  predicate Selects(g: Engine, row: Row, signal: Signal, node: FilterNode)
  {
    var c := Compile(signal, node);
    && c.Success?
    && var r := EvalSql(g, row, c.value.sql, c.value.args);
       r.Some? && r.value.0 == True
  }

  /** A validated predicate on a field of the catalog. */
  predicate TestsField(signal: Signal, p: FilterNode, compiles: string -> bool)
  {
    && p.Predicate? && PredicateError(p, compiles).None?
    && ScopeOf(signal, p.field).None? && Locate(signal, p.field).Success?
  }

  lemma PredicateSelects(g: Engine, row: Row, signal: Signal, p: FilterNode, compiles: string -> bool)
    requires TestsField(signal, p, compiles) && WellTyped(row)
    ensures var loc := Locate(signal, p.field).value;
            Selects(g, row, signal, p) <==> ObservationSatisfies(g, Observe(g, row, loc), Tracked(loc), p.op, p.operand)
  {
    hide PredicateError, Locate, ScopeOf, WellTyped, ObservationSatisfies, CompilePredicate, EvalSql;
    PredicateSays(g, row, signal, p, compiles, []);
    var c := CompilePredicate(Render(Locate(signal, p.field).value), p).value;
    assert c.args + [] == c.args;
    assert Compile(signal, p) == Success(c);
  }

  /** A positive test never selects a row that does not have the field, for every field that
      can be absent. */
  lemma PositiveNeedsPresence(g: Engine, row: Row, signal: Signal, p: FilterNode, compiles: string -> bool)
    requires TestsField(signal, p, compiles) && WellTyped(row) && !IsNegative(p.op) && p.op != NotExists
    ensures var loc := Locate(signal, p.field).value;
            Selects(g, row, signal, p) && Tracked(loc) ==> Observe(g, row, loc).present
  {
    PredicateSelects(g, row, signal, p, compiles);
    hide Locate, Observe, Selects, WellTyped;
  }

  lemma OppositeIsValid(signal: Signal, p: FilterNode, compiles: string -> bool)
    requires TestsField(signal, p, compiles) && IsNegative(p.op)
    ensures TestsField(signal, p.(op := Opposite(p.op)), compiles)
  {
    hide Locate, ScopeOf, TrimSpace, Utf8Length;
  }

  /** What is read instead of an absent field does not pass the positive test. A map gives its
      zero value, whatever the row; a missing body path cannot be compared at all. */
  predicate DefaultFails(g: Engine, row: Row, loc: Location, positive: FilterOp, operand: Operand)
  {
    match loc
    case MapKey(_, _, typ, _) => !Satisfies(g, positive, Zero(typ), operand)
    case Materialized(column, _) => !Satisfies(g, positive, row.columns(column), operand)
    case Plain(_, _) => true
    case JsonBody(_) => false
  }

  /** A negative test selects exactly the rows its positive one does not, exactly when the field
      is there, or what is read instead fails the positive test. */
  lemma NegativeIsComplement(g: Engine, row: Row, signal: Signal, p: FilterNode, compiles: string -> bool)
    requires TestsField(signal, p, compiles) && WellTyped(row) && IsNegative(p.op)
    ensures var loc := Locate(signal, p.field).value;
            (Selects(g, row, signal, p) <==> !Selects(g, row, signal, p.(op := Opposite(p.op)))) <==>
            Observe(g, row, loc).present || DefaultFails(g, row, loc, Opposite(p.op), p.operand)
  {
    OppositeIsValid(signal, p, compiles);
    PredicateSelects(g, row, signal, p, compiles);
    PredicateSelects(g, row, signal, p.(op := Opposite(p.op)), compiles);
    ObservedType(g, row, signal, p.field);
    hide Locate, Observe, Selects, WellTyped, TestsField, ObservationSatisfies, DefaultFails;
    ObservedComplement(g, row, Locate(signal, p.field).value, p.op, p.operand);
  }

  lemma ObservedComplement(g: Engine, row: Row, loc: Location, op: FilterOp, operand: Operand)
    requires IsNegative(op)
    requires Observe(g, row, loc).value == Null ==> loc.JsonBody? && !Observe(g, row, loc).present
    ensures var o := Observe(g, row, loc);
            var tracked := Tracked(loc);
            (ObservationSatisfies(g, o, tracked, op, operand) <==> !ObservationSatisfies(g, o, tracked, Opposite(op), operand)) <==>
            o.present || DefaultFails(g, row, loc, Opposite(op), operand)
  {
    hide Satisfies;
  }

  // ----- missing items -----

  lemma {:induction false} IncompleteItemsFail(g: Engine, row: Row, signal: Signal, items: seq<FilterNode>,
                                               compiles: string -> bool, args: Args)
    requires CompileAll(signal, items).Success?
    requires forall i :: 0 <= i < |items| ==> WellFormed(items[i], compiles)
    requires exists i :: 0 <= i < |items| && !Complete(items[i])
    ensures EvalAll(g, row, CompileAll(signal, items).value.0, args).None?
    decreases items, 0
  {
    hide EvalSql, Compile, WellFormed, Complete;
    var last := |items| - 1;
    var before := CompileAll(signal, items[..last]).value;
    EvalAllSnoc(g, row, before.0, Compile(signal, items[last]).value.sql, args);
    if i :| 0 <= i < last && !Complete(items[i]) {
      assert !Complete(items[..last][i]);
      IncompleteItemsFail(g, row, signal, items[..last], compiles, args);
    } else {
      var start := EvalAll(g, row, before.0, args);
      if start.Some? {
        IncompleteFails(g, row, signal, items[last], compiles, start.value.1);
      }
    }
  }

  lemma {:induction false} IncompleteFails(g: Engine, row: Row, signal: Signal, node: FilterNode,
                                           compiles: string -> bool, args: Args)
    requires WellFormed(node, compiles) && !Complete(node) && Compile(signal, node).Success?
    ensures EvalSql(g, row, Compile(signal, node).value.sql, args).None?
    decreases node, 1
  {
    match node
    case NilFilter =>
    case Logical(op, items) =>
      IncompleteItemsFail(g, row, signal, items, compiles, args);
      JoinedEvaluates(g, row, CompileAll(signal, items).value.0, args);
  }

  /** The condition compiled from a validated filter can be evaluated exactly when no item is
      missing: validation lets missing items through, and for metrics so does compilation. */
  lemma EvaluatesIffComplete(g: Engine, row: Row, signal: Signal, node: FilterNode, compiles: string -> bool)
    requires WellFormed(node, compiles) && WellTyped(row) && Compile(signal, node).Success?
    ensures var c := Compile(signal, node).value;
            EvalSql(g, row, c.sql, c.args).Some? <==> Complete(node)
  {
    hide WellFormed, Compile, EvalSql, Complete, WellTyped;
    var c := Compile(signal, node).value;
    if Complete(node) {
      FilterPreservesMeaning(g, row, signal, node, compiles, []);
      assert c.args + [] == c.args;
    } else {
      IncompleteFails(g, row, signal, node, compiles, c.args);
    }
  }

  lemma PairWithMissing(p: FilterNode, compiles: string -> bool)
    requires p.Predicate? && PredicateError(p, compiles).None?
    ensures var node := Logical(AllOf, [NilFilter, p]);
            WellFormed(node, compiles) && !Complete(node) && WithinDepth(node, 2) && Size(node) == 2
    ensures forall signal :: Supported(signal, NilFilter) && Supported(signal, p) ==> Supported(signal, Logical(AllOf, [NilFilter, p]))
  {
    hide PredicateError;
    var items := [NilFilter, p];
    assert items[0] == NilFilter && items[1] == p;
    assert items[..1] == [NilFilter] && [NilFilter][..0] == [];
    assert SizeOfAll([NilFilter]) == 0 && SizeOfAll(items) == 1;
    assert !Complete(items[0]) && WellFormed(items[0], compiles) && WellFormed(items[1], compiles);
  }

  /** Such a filter exists: a metric filter with a missing item is validated and compiled to
      a condition that cannot be evaluated. */
  lemma MissingItemIsAccepted(g: Engine, row: Row, compiles: string -> bool)
    ensures var unit := FieldRef("unit", Metric, StringType);
            var test := Predicate(unit, Exists, Operand(NoValue, "", NotFinite, false, [], [], []));
            var node := Logical(AllOf, [NilFilter, test]);
            && WellFormed(node, compiles) && WithinDepth(node, 2) && Size(node) == 2
            && Compile(Metrics, node).Success?
            && EvalSql(g, row, Compile(Metrics, node).value.sql, Compile(Metrics, node).value.args).None?
  {
    var unit := FieldRef("unit", Metric, StringType);
    var test := Predicate(unit, Exists, Operand(NoValue, "", NotFinite, false, [], [], []));
    var node := Logical(AllOf, [NilFilter, test]);
    assert ValidField(unit) by { TrimmedIsUnchanged("unit"); }
    hide ValidField, WellFormed, Complete, Size, WithinDepth;
    PairWithMissing(test, compiles);
    assert Locate(Metrics, unit) == Success(Plain("unit", StringType));
    assert Supported(Metrics, test);
    assert Supported(Metrics, NilFilter);
    CompilesIffSupported(Metrics, node, compiles);
    IncompleteFails(g, row, Metrics, node, compiles, Compile(Metrics, node).value.args);
  }

  // ----- what compiles -----

  /** Every field is in the catalog, scopes are only tested for truth, and missing items only
      occur for metrics. */
  predicate Supported(signal: Signal, node: FilterNode)
  {
    match node
    case NilFilter => IsMetric(signal)
    case Logical(_, items) => forall i :: 0 <= i < |items| ==> Supported(signal, items[i])
    case Predicate(field, op, operand) =>
      if ScopeOf(signal, field).Some? then field.typ == BoolType && op == Equal && operand.kind == BoolKind && operand.truth
      else Locate(signal, field).Success?
  }

  lemma LeafCompilesIffSupported(signal: Signal, p: FilterNode, compiles: string -> bool)
    requires p.Predicate? && WellFormed(p, compiles)
    ensures CompileLeaf(signal, p).Success? <==> Supported(signal, p)
  {
    hide Locate, ScopeOf, TrimSpace, Utf8Length, Guarded, Render;
  }

  lemma {:induction false} CompilesIffSupported(signal: Signal, node: FilterNode, compiles: string -> bool)
    requires WellFormed(node, compiles)
    ensures Compile(signal, node).Success? <==> Supported(signal, node)
    decreases node, 1
  {
    match node
    case NilFilter =>
    case Predicate(_, _, _) =>
      hide CompileLeaf, WellFormed, Supported;
      LeafCompilesIffSupported(signal, node, compiles);
    case Logical(_, items) =>
      hide CompileLeaf;
      CompilesIffAllSupported(signal, items, compiles);
  }

  lemma {:induction false} CompilesIffAllSupported(signal: Signal, items: seq<FilterNode>, compiles: string -> bool)
    requires forall i :: 0 <= i < |items| ==> WellFormed(items[i], compiles)
    ensures CompileAll(signal, items).Success? <==> forall i :: 0 <= i < |items| ==> Supported(signal, items[i])
    decreases items, 0
  {
    hide Compile, Supported, WellFormed;
    if items != [] {
      var last := |items| - 1;
      CompilesIffAllSupported(signal, items[..last], compiles);
      CompilesIffSupported(signal, items[last], compiles);
    }
  }

  // ----- histogram buckets -----

  predicate IsBucketTest(p: FilterNode)
    requires p.Predicate?
  {
    && p.field.name == "le" && p.field.context == Label
    && (if p.op == Equal then p.operand.kind == StringKind && p.operand.text != ""
        else p.op == In && p.operand.kind == StringList && |p.operand.strings| == 1)
  }

  predicate FixesBucket(node: FilterNode)
  {
    match node
    case NilFilter => false
    case Logical(op, items) => op == AllOf && exists i :: 0 <= i < |items| && FixesBucket(items[i])
    case Predicate(_, _, _) => IsBucketTest(node)
  }

  method HasSingleHistogramBucket(node: FilterNode) returns (r: bool)
    ensures r <==> FixesBucket(node)
    decreases node
  {
    match node {
      case NilFilter => r := false;
      case Predicate(field, op, operand) =>
        if field.name != "le" || field.context != Label {
          return false;
        }
        if op == Equal {
          return operand.kind == StringKind && operand.text != "";
        }
        r := op == In && operand.kind == StringList && |operand.strings| == 1;
      case Logical(op, items) =>
        if op != AllOf {
          return false;
        }
        for i := 0 to |items|
          invariant forall k :: 0 <= k < i ==> !FixesBucket(items[k])
        {
          var found: bool := HasSingleHistogramBucket(items[i]);
          if found {
            return true;
          }
        }
        r := false;
    }
  }

  /** The bucket an accepted filter selects. */
  ghost function Bucket(node: FilterNode): string
    requires FixesBucket(node)
  {
    match node
    case Predicate(_, op, operand) => if op == Equal then operand.text else operand.strings[0]
    case Logical(_, items) => var i :| 0 <= i < |items| && FixesBucket(items[i]); Bucket(items[i])
  }

  lemma LeafSharesBucket(g: Engine, row: Row, p: FilterNode)
    requires p.Predicate? && IsBucketTest(p) && LeafHolds(g, row, Metrics, p)
    ensures "le" in row.maps("labels") && row.maps("labels")["le"] == Str(Bucket(p))
  {
    hide LocateLog, LocateTrace, TrimSpace, ToLower;
    assert Locate(Metrics, p.field) == Success(MapKey("labels", "le", StringType, false));
    if p.op == In {
      assert InOwnList(row.maps("labels")["le"], p.operand);
    }
  }

  lemma {:induction false} AcceptedRowsShareBucket(g: Engine, row: Row, node: FilterNode)
    requires FixesBucket(node) && Accepts(g, row, Metrics, node)
    ensures "le" in row.maps("labels") && row.maps("labels")["le"] == Str(Bucket(node))
  {
    hide LeafHolds, IsBucketTest;
    match node
    case Predicate(_, _, _) =>
      LeafSharesBucket(g, row, node);
    case Logical(_, items) =>
      var i :| 0 <= i < |items| && FixesBucket(items[i]) && Bucket(node) == Bucket(items[i]);
      AcceptedRowsShareBucket(g, row, items[i]);
  }

  /** All rows that satisfy the condition compiled from an accepted filter carry one and the
      same bucket label. */
  lemma SingleBucketIsSound(g: Engine, row: Row, node: FilterNode, compiles: string -> bool)
    requires WellFormed(node, compiles) && Complete(node) && WellTyped(row)
    requires FixesBucket(node) && Compile(Metrics, node).Success?
    ensures var c := Compile(Metrics, node).value;
            var r := EvalSql(g, row, c.sql, c.args);
            r.Some? && (r.value.0 == True ==> "le" in row.maps("labels") && row.maps("labels")["le"] == Str(Bucket(node)))
  {
    hide WellFormed, Compile, EvalSql, Complete, WellTyped, FixesBucket, Accepts, Bucket;
    var c := Compile(Metrics, node).value;
    FilterPreservesMeaning(g, row, Metrics, node, compiles, []);
    assert c.args + [] == c.args;
    if Accepts(g, row, Metrics, node) {
      AcceptedRowsShareBucket(g, row, node);
    }
  }
}
