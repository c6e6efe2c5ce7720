/** What a filter tree says about a row, and that its compiled condition says the same. */
module FilterMeaning {
  import opened Fields
  import opened Filters
  import opened FilterSql
  import opened FieldCatalog
  import opened FilterCompiler
  import opened Results
  import opened Strings

  // ----- denotation -----

  predicate IsNegative(op: FilterOp)
  {
    op == NotEqual || op == NotIn || op == NotContains || op == NotLike || op == NotILike || op == NotRegexp
  }

  /** The positive operator of a negative one, and the other way round. */
  function Opposite(op: FilterOp): FilterOp
  {
    match op
    case Equal => NotEqual case NotEqual => Equal
    case In => NotIn case NotIn => In
    case Exists => NotExists case NotExists => Exists
    case Contains => NotContains case NotContains => Contains
    case Like => NotLike case NotLike => Like
    case ILike => NotILike case NotILike => ILike
    case Regexp => NotRegexp case NotRegexp => Regexp
    case GreaterThan => LessEq case LessEq => GreaterThan
    case LessThan => GreaterEq case GreaterEq => LessThan
    case UnknownOp => UnknownOp
  }

  predicate InOwnList(v: Scalar, operand: Operand)
  {
    match operand.kind
    case StringList => exists i :: 0 <= i < |operand.strings| && v == Str(operand.strings[i])
    case NumberList => exists i :: 0 <= i < |operand.numbers| && v == Num(operand.numbers[i])
    case BoolList => exists i :: 0 <= i < |operand.bools| && v == Boolean(operand.bools[i])
    case _ => false
  }

  /** A value satisfies a positive test. */
  predicate Satisfies(g: Engine, op: FilterOp, v: Scalar, operand: Operand)
  {
    match op
    case Equal => v == ScalarOf(operand)
    case GreaterThan => Less(g, ScalarOf(operand), v)
    case GreaterEq => Less(g, ScalarOf(operand), v) || v == ScalarOf(operand)
    case LessThan => Less(g, v, ScalarOf(operand))
    case LessEq => Less(g, v, ScalarOf(operand)) || v == ScalarOf(operand)
    case In => InOwnList(v, operand)
    case Contains => g.position(g.text(v), operand.text) > 0
    case Like => g.matches(LikePattern, g.text(v), operand.text)
    case ILike => g.matches(ILikePattern, g.text(v), operand.text)
    case Regexp => g.matches(RegexpPattern, g.text(v), operand.text)
    case _ => false
  }

  predicate ObservationSatisfies(g: Engine, o: Observation, tracked: bool, op: FilterOp, operand: Operand)
  {
    if op == Exists then o.present
    else if op == NotExists then !o.present
    else if IsNegative(op) then o.value != Null && !Satisfies(g, Opposite(op), o.value, operand)
    else (tracked ==> o.present) && o.value != Null && Satisfies(g, op, o.value, operand)
  }

  predicate InScope(row: Row, scope: TraceScope)
  {
    match scope
    case RootScope => row.columns("parent_span_id") == Str("")
    case EntrypointScope =>
      && row.columns("parent_span_id") != Str("")
      && (row.columns("kind") == Num(Finite(2.0)) || row.columns("kind") == Num(Finite(5.0)))
      && row.columns("is_remote") == Str("yes")
  }

  predicate LeafHolds(g: Engine, row: Row, signal: Signal, p: FilterNode)
    requires p.Predicate?
  {
    var scope := ScopeOf(signal, p.field);
    if scope.Some? then InScope(row, scope.value)
    else
      var loc := Locate(signal, p.field);
      loc.Success? && ObservationSatisfies(g, Observe(g, row, loc.value), Tracked(loc.value), p.op, p.operand)
  }

  /** The meaning of a filter: logical operators over what its predicates say. */
  predicate Accepts(g: Engine, row: Row, signal: Signal, node: FilterNode)
  {
    match node
    case NilFilter => true
    case Logical(AnyOf, items) => exists i :: 0 <= i < |items| && Accepts(g, row, signal, items[i])
    case Logical(_, items) => forall i :: 0 <= i < |items| ==> Accepts(g, row, signal, items[i])
    case Predicate(_, _, _) => LeafHolds(g, row, signal, node)
  }

  /** No item below is missing. */
  predicate Complete(node: FilterNode)
  {
    match node
    case NilFilter => false
    case Logical(_, items) => forall i :: 0 <= i < |items| ==> Complete(items[i])
    case Predicate(_, _, _) => true
  }

  // ----- one predicate -----

  lemma {:induction false} SlotsEvaluate(g: Engine, row: Row, values: Args, rest: Args)
    ensures EvalList(g, row, Slots(|values|), values + rest) == Some((values, rest))
  {
    if values == [] {
      assert values + rest == rest;
    } else {
      var last := |values| - 1;
      SlotsEvaluate(g, row, values[..last], [values[last]] + rest);
      assert values + rest == values[..last] + ([values[last]] + rest);
      assert Slots(|values|)[..last] == Slots(last) && Slots(|values|)[last] == Slot;
      OneArgument(values[last], rest);
      assert EvalExpr(g, row, Slot, [values[last]] + rest) == Some((values[last], rest));
      assert values[..last] + [values[last]] == values;
    }
  }

  lemma OwnListIsEnough(v: Scalar, operand: Operand, typ: ValueType)
    requires ListMatches(operand, typ) && HasValueType(v, typ)
    ensures v in ListValues(operand) <==> InOwnList(v, operand)
  {
    var values := ListValues(operand);
    var s, n := |operand.strings|, |operand.numbers|;
    if v in values {
      var i :| 0 <= i < |values| && values[i] == v;
    }
    match operand.kind {
      case StringList => assert forall i :: 0 <= i < s ==> values[i] == Str(operand.strings[i]);
      case NumberList => assert forall i :: 0 <= i < n ==> values[s + i] == Num(operand.numbers[i]);
      case BoolList => assert forall i :: 0 <= i < |operand.bools| ==> values[s + n + i] == Boolean(operand.bools[i]);
    }
  }

  /** A condition on a field's value without its guard: the meaning of the operator, and null
      when the value is. */
  predicate Reads(g: Engine, row: Row, field: ResolvedField, condition: Sql, args: Args, rest: Args, v: Scalar, holds: bool)
  {
    EvalSql(g, row, condition, field.args + args + rest) == Some((if v == Null then Unknown else TruthOf(holds), rest))
  }

  lemma GuardedReads(g: Engine, row: Row, loc: Location, condition: Sql, args: Args, rest: Args, guard: bool, holds: bool)
    requires loc.Plain? ==> row.columns(loc.column) != Null
    requires Reads(g, row, Render(loc), condition, args, rest, Observe(g, row, loc).value, holds)
    ensures var c := Guarded(Render(loc), condition, args, guard);
            var r := EvalSql(g, row, c.sql, c.args + rest);
            && r.Some? && r.value.1 == rest
            && (r.value.0 == True <==>
                  Observe(g, row, loc).value != Null && holds && (Tracked(loc) && guard ==> Observe(g, row, loc).present))
  {
    hide EvalExpr;
    var field := Render(loc);
    RenderedReads(g, row, loc, field.args + args + rest);
    if field.requiresExistence && guard {
      assert field.existsArgs + (field.args + args) + rest == field.existsArgs + (field.args + args + rest);
      BothEvaluate(g, row, field.existsSql, condition, field.existsArgs + (field.args + args) + rest);
    }
  }

  lemma BothEvaluate(g: Engine, row: Row, a: Sql, b: Sql, args: Args)
    requires EvalSql(g, row, a, args).Some? && EvalSql(g, row, b, EvalSql(g, row, a, args).value.1).Some?
    ensures var first := EvalSql(g, row, a, args).value;
            EvalSql(g, row, And([a, b]), args) ==
            Some((Conjunction([first.0, EvalSql(g, row, b, first.1).value.0]), EvalSql(g, row, b, first.1).value.1))
  {
    hide EvalSql;
    var first := EvalSql(g, row, a, args).value;
    var second := EvalSql(g, row, b, first.1).value;
    EvalAllSnoc(g, row, [], a, args);
    EvalAllSnoc(g, row, [a], b, args);
    assert [] + [a] == [a] && [a] + [b] == [a, b];
    assert [] + [first.0] == [first.0] && [first.0] + [second.0] == [first.0, second.0];
    JoinedEvaluates(g, row, [a, b], args);
  }

  lemma EvalAllSnoc(g: Engine, row: Row, parts: seq<Sql>, c: Sql, args: Args)
    ensures EvalAll(g, row, parts + [c], args) ==
              var before := EvalAll(g, row, parts, args);
              if before.None? then None
              else
                var t := EvalSql(g, row, c, before.value.1);
                if t.None? then None else Some((before.value.0 + [t.value.0], t.value.1))
    ensures EvalAll(g, row, [], args) == Some(([], args))
  {
    hide EvalSql;
    var more := parts + [c];
    assert more[..|more| - 1] == parts && more[|more| - 1] == c;
  }

  lemma JoinedEvaluates(g: Engine, row: Row, parts: seq<Sql>, args: Args)
    ensures EvalSql(g, row, And(parts), args) ==
              var ts := EvalAll(g, row, parts, args);
              if ts.None? then None else Some((Conjunction(ts.value.0), ts.value.1))
    ensures EvalSql(g, row, Or(parts), args) ==
              var ts := EvalAll(g, row, parts, args);
              if ts.None? then None else Some((Disjunction(ts.value.0), ts.value.1))
  {
    hide EvalAll;
  }

  lemma ComparisonReads(g: Engine, row: Row, loc: Location, p: FilterNode, rest: Args)
    requires p.Predicate? && IsScalarOp(p.op) && ScalarOf(p.operand) != Null
    requires loc.Plain? ==> row.columns(loc.column) != Null
    ensures var v := Observe(g, row, loc).value;
            Reads(g, row, Render(loc), Compare(Render(loc).sql, RelationOf(p.op), if Render(loc).castComparison then Cast(Slot) else Slot),
                  [ScalarOf(p.operand)], rest, v, Holds(g, RelationOf(p.op), v, ScalarOf(p.operand)))
  {
    hide Observe, ScalarOf, Holds;
    var tail := [ScalarOf(p.operand)] + rest;
    RenderedReads(g, row, loc, tail);
    assert Render(loc).args + tail == Render(loc).args + [ScalarOf(p.operand)] + rest;
    OneArgument(ScalarOf(p.operand), rest);
    assert EvalExpr(g, row, Slot, tail) == Some((ScalarOf(p.operand), rest));
    assert EvalExpr(g, row, Cast(Slot), tail) == Some((ScalarOf(p.operand), rest));
  }

  lemma MembershipReads(g: Engine, row: Row, loc: Location, operand: Operand, negated: bool, rest: Args)
    requires loc.Plain? ==> row.columns(loc.column) != Null
    ensures var v := Observe(g, row, loc).value;
            var values := ListValues(operand);
            Reads(g, row, Render(loc), Member(Render(loc).sql, Slots(|values|), negated), values, rest, v, (v in values) != negated)
  {
    hide ListValues, Observe;
    var values := ListValues(operand);
    RenderedReads(g, row, loc, values + rest);
    assert Render(loc).args + (values + rest) == Render(loc).args + values + rest;
    SlotsEvaluate(g, row, values, rest);
  }

  lemma PatternReads(g: Engine, row: Row, loc: Location, how: Pattern, text: string, rest: Args)
    requires loc.Plain? ==> row.columns(loc.column) != Null
    ensures var v := Observe(g, row, loc).value;
            var m := g.matches(how, g.text(v), text);
            var p := g.position(g.text(v), text);
            && Reads(g, row, Render(loc), Matches(how, Render(loc).sql, Slot), [Str(text)], rest, v, m)
            && Reads(g, row, Render(loc), Not(Matches(how, Render(loc).sql, Slot)), [Str(text)], rest, v, !m)
            && Reads(g, row, Render(loc), Position(Render(loc).sql, Slot, true), [Str(text)], rest, v, p > 0)
            && Reads(g, row, Render(loc), Position(Render(loc).sql, Slot, false), [Str(text)], rest, v, p == 0)
  {
    hide Observe, Render;
    var tail := [Str(text)] + rest;
    RenderedReads(g, row, loc, tail);
    assert Render(loc).args + tail == Render(loc).args + [Str(text)] + rest;
    OneArgument(Str(text), rest);
    assert EvalTexts(g, row, Render(loc).sql, Slot, Render(loc).args + [Str(text)] + rest)
        == Some((Observe(g, row, loc).value, text, rest));
  }

  /** The condition evaluates, uses up its arguments, and is true exactly when `holds`. */
  predicate Says(g: Engine, row: Row, c: Compiled, rest: Args, holds: bool)
  {
    var r := EvalSql(g, row, c.sql, c.args + rest);
    r.Some? && r.value.1 == rest && (r.value.0 == True <==> holds)
  }

  lemma ExistenceSays(g: Engine, row: Row, loc: Location, rest: Args)
    requires loc.Plain? ==> row.columns(loc.column) != Null
    ensures Says(g, row, Compiled(Render(loc).existsSql, Render(loc).existsArgs), rest, Observe(g, row, loc).present)
    ensures Says(g, row, Compiled(Not(Render(loc).existsSql), Render(loc).existsArgs), rest, !Observe(g, row, loc).present)
  {
    hide Observe, Render;
    RenderedReads(g, row, loc, rest);
  }

  lemma ComparisonSays(g: Engine, row: Row, loc: Location, p: FilterNode, rest: Args)
    requires p.Predicate? && IsScalarOp(p.op) && ScalarOf(p.operand) != Null
    requires loc.Plain? ==> row.columns(loc.column) != Null
    ensures var c := CompilePredicate(Render(loc), p);
            && c.Success?
            && Says(g, row, c.value, rest, ObservationSatisfies(g, Observe(g, row, loc), Tracked(loc), p.op, p.operand))
  {
    hide Observe, Render, EvalSql, Tracked, ScalarOf, Less;
    var v := Observe(g, row, loc).value;
    var value := if Render(loc).castComparison then Cast(Slot) else Slot;
    ComparisonReads(g, row, loc, p, rest);
    GuardedReads(g, row, loc, Compare(Render(loc).sql, RelationOf(p.op), value), [ScalarOf(p.operand)], rest, p.op != NotEqual,
                 Holds(g, RelationOf(p.op), v, ScalarOf(p.operand)));
  }

  lemma MembershipSays(g: Engine, row: Row, loc: Location, p: FilterNode, rest: Args)
    requires p.Predicate? && (p.op == In || p.op == NotIn)
    requires loc.Plain? ==> row.columns(loc.column) != Null
    requires var v := Observe(g, row, loc).value;
             v == Null || (v in ListValues(p.operand) <==> InOwnList(v, p.operand))
    ensures var c := CompilePredicate(Render(loc), p);
            && c.Success?
            && Says(g, row, c.value, rest, ObservationSatisfies(g, Observe(g, row, loc), Tracked(loc), p.op, p.operand))
  {
    hide Observe, Render, EvalSql, Tracked, ListValues, Slots, InOwnList;
    var v, values := Observe(g, row, loc).value, ListValues(p.operand);
    MembershipReads(g, row, loc, p.operand, p.op == NotIn, rest);
    GuardedReads(g, row, loc, Member(Render(loc).sql, Slots(|values|), p.op == NotIn), values, rest, p.op == In,
                 (v in values) != (p.op == NotIn));
  }

  lemma PresenceSays(g: Engine, row: Row, loc: Location, p: FilterNode, rest: Args)
    requires p.Predicate? && (p.op == Exists || p.op == NotExists)
    requires loc.Plain? ==> row.columns(loc.column) != Null
    ensures var c := CompilePredicate(Render(loc), p);
            && c.Success?
            && Says(g, row, c.value, rest, ObservationSatisfies(g, Observe(g, row, loc), Tracked(loc), p.op, p.operand))
  {
    hide Observe, Render, Says;
    ExistenceSays(g, row, loc, rest);
  }

  /** A compiled predicate says what the predicate means. */
  lemma PredicateSays(g: Engine, row: Row, signal: Signal, p: FilterNode, compiles: string -> bool, rest: Args)
    requires p.Predicate? && PredicateError(p, compiles).None? && WellTyped(row) && Locate(signal, p.field).Success?
    ensures var loc := Locate(signal, p.field).value;
            var c := CompilePredicate(Render(loc), p);
            && c.Success?
            && Says(g, row, c.value, rest, ObservationSatisfies(g, Observe(g, row, loc), Tracked(loc), p.op, p.operand))
  {
    var loc := Locate(signal, p.field).value;
    ObservedType(g, row, signal, p.field);
    assert loc.Plain? ==> row.columns(loc.column) != Null;
    hide Locate, Observe, WellTyped, TrimSpace, Utf8Length, ListValues, ObservationSatisfies, Says, CompilePredicate;
    if IsScalarOp(p.op) {
      ComparisonSays(g, row, loc, p, rest);
    } else if p.op == In || p.op == NotIn {
      var v := Observe(g, row, loc).value;
      if v != Null { OwnListIsEnough(v, p.operand, p.field.typ); }
      MembershipSays(g, row, loc, p, rest);
    } else if p.op == Exists || p.op == NotExists {
      PresenceSays(g, row, loc, p, rest);
    } else {
      PatternSays(g, row, loc, p, rest);
    }
  }

  lemma PatternSays(g: Engine, row: Row, loc: Location, p: FilterNode, rest: Args)
    requires p.Predicate? && IsPatternOp(p.op)
    requires loc.Plain? ==> row.columns(loc.column) != Null
    ensures var c := CompilePredicate(Render(loc), p);
            && c.Success?
            && Says(g, row, c.value, rest, ObservationSatisfies(g, Observe(g, row, loc), Tracked(loc), p.op, p.operand))
  {
    hide Observe, Render, EvalSql, EvalExpr, Tracked;
    var v, sql := Observe(g, row, loc).value, Render(loc).sql;
    var how := if p.op == Like || p.op == NotLike then LikePattern
               else if p.op == ILike || p.op == NotILike then ILikePattern else RegexpPattern;
    var m := g.matches(how, g.text(v), p.operand.text);
    var at := g.position(g.text(v), p.operand.text);
    PatternReads(g, row, loc, how, p.operand.text, rest);
    if p.op == Contains {
      GuardedReads(g, row, loc, Position(sql, Slot, true), [Str(p.operand.text)], rest, true, at > 0);
    } else if p.op == NotContains {
      GuardedReads(g, row, loc, Position(sql, Slot, false), [Str(p.operand.text)], rest, false, at == 0);
    } else if IsNegative(p.op) {
      GuardedReads(g, row, loc, Not(Matches(how, sql, Slot)), [Str(p.operand.text)], rest, false, !m);
    } else {
      GuardedReads(g, row, loc, Matches(how, sql, Slot), [Str(p.operand.text)], rest, true, m);
    }
  }

  lemma ScopeSays(g: Engine, row: Row, scope: TraceScope, p: FilterNode, rest: Args)
    requires p.Predicate? && CompileScope(scope, p).Success?
    requires row.columns("parent_span_id").Str? && row.columns("kind").Num? && row.columns("is_remote").Str?
    ensures Says(g, row, CompileScope(scope, p).value, rest, InScope(row, scope))
  {
    assert [] + rest == rest;
    if scope.EntrypointScope? {
      var c := CompileScope(scope, p).value.sql;
      EntrypointEvaluates(g, row, rest);
      JoinedEvaluates(g, row, c.parts, rest);
    }
  }

  lemma EntrypointEvaluates(g: Engine, row: Row, rest: Args)
    requires row.columns("parent_span_id").Str? && row.columns("kind").Num? && row.columns("is_remote").Str?
    ensures var kinds := Member(Column("kind"), [Literal(Num(Finite(2.0))), Literal(Num(Finite(5.0)))], false);
            EvalAll(g, row, [Text("parent_span_id", Ne, ""), kinds, Text("is_remote", Eq, "yes")], rest) ==
            Some(([TruthOf(row.columns("parent_span_id") != Str("")),
                   TruthOf(row.columns("kind") == Num(Finite(2.0)) || row.columns("kind") == Num(Finite(5.0))),
                   TruthOf(row.columns("is_remote") == Str("yes"))], rest))
  {
    var a, c := Text("parent_span_id", Ne, ""), Text("is_remote", Eq, "yes");
    var kinds := Member(Column("kind"), [Literal(Num(Finite(2.0))), Literal(Num(Finite(5.0)))], false);
    var two, five := Num(Finite(2.0)), Num(Finite(5.0));
    KindsEvaluate(g, row, rest);
    TextEvaluates(g, row, "parent_span_id", Ne, "", rest);
    TextEvaluates(g, row, "is_remote", Eq, "yes", rest);
    hide EvalAll, EvalSql;
    EvalAllSnoc(g, row, [], a, rest);
    EvalAllSnoc(g, row, [a], kinds, rest);
    EvalAllSnoc(g, row, [a, kinds], c, rest);
    assert [] + [a] == [a] && [a] + [kinds] == [a, kinds] && [a, kinds] + [c] == [a, kinds, c];
    var t, u, v := TruthOf(row.columns("parent_span_id") != Str("")),
      TruthOf(row.columns("kind") == Num(Finite(2.0)) || row.columns("kind") == Num(Finite(5.0))),
      TruthOf(row.columns("is_remote") == Str("yes"));
    assert EvalSql(g, row, a, rest) == Some((t, rest)) && EvalSql(g, row, c, rest) == Some((v, rest));
    assert EvalAll(g, row, [a], rest) == Some(([t], rest)) by { assert [] + [t] == [t]; }
    assert EvalAll(g, row, [a, kinds], rest) == Some(([t, u], rest)) by { assert [t] + [u] == [t, u]; }
    assert EvalAll(g, row, [a, kinds, c], rest) == Some(([t, u, v], rest)) by { assert [t, u] + [v] == [t, u, v]; }
  }

  lemma TextEvaluates(g: Engine, row: Row, column: string, relation: Relation, text: string, rest: Args)
    requires row.columns(column).Str? && (relation == Eq || relation == Ne)
    ensures EvalSql(g, row, Text(column, relation, text), rest) ==
            Some((TruthOf((row.columns(column) == Str(text)) == (relation == Eq)), rest))
  {
  }

  lemma KindsEvaluate(g: Engine, row: Row, rest: Args)
    requires row.columns("kind").Num?
    ensures EvalSql(g, row, Member(Column("kind"), [Literal(Num(Finite(2.0))), Literal(Num(Finite(5.0)))], false), rest) ==
            Some((TruthOf(row.columns("kind") == Num(Finite(2.0)) || row.columns("kind") == Num(Finite(5.0))), rest))
  {
    var two, five := Num(Finite(2.0)), Num(Finite(5.0));
    var list := [Literal(two), Literal(five)];
    assert list[..1] == [Literal(two)] && list[..1][..0] == [];
    assert EvalList(g, row, list[..1], rest) == Some(([two], rest)) by { assert [] + [two] == [two]; }
    assert EvalList(g, row, list, rest) == Some(([two, five], rest)) by { assert [two] + [five] == [two, five]; }
  }

  lemma LeafSays(g: Engine, row: Row, signal: Signal, p: FilterNode, compiles: string -> bool, rest: Args)
    requires p.Predicate? && PredicateError(p, compiles).None? && WellTyped(row) && CompileLeaf(signal, p).Success?
    ensures Says(g, row, CompileLeaf(signal, p).value, rest, LeafHolds(g, row, signal, p))
  {
    hide PredicateError, Says, CompileScope, CompilePredicate, ObservationSatisfies, InScope;
    if ScopeOf(signal, p.field).Some? {
      SpanColumnTypes(row);
      ScopeSays(g, row, ScopeOf(signal, p.field).value, p, rest);
    } else {
      hide Locate, WellTyped;
      PredicateSays(g, row, signal, p, compiles, rest);
    }
  }

  lemma SpanColumnTypes(row: Row)
    requires WellTyped(row)
    ensures row.columns("parent_span_id").Str? && row.columns("kind").Num? && row.columns("is_remote").Str?
  {
    hide WellTyped;
    SpanColumnType(row, "parent_span_id", StringType);
    SpanColumnType(row, "kind", NumberType);
    SpanColumnType(row, "is_remote", StringType);
  }

  lemma SpanColumnType(row: Row, name: string, typ: ValueType)
    requires WellTyped(row) && name != "" && Trimmed(name) && TraceIntrinsic(name) == Some(typ)
    ensures HasValueType(row.columns(name), typ)
  {
    hide TrimSpace, TraceIntrinsic, LocateLog, LocateMetric;
    TrimmedIsUnchanged(name);
    assert Locate(Traces, FieldRef(name, Span, typ)) == Success(Plain(name, typ));
  }

  // ----- trees -----

  lemma {:induction false} AllSay(g: Engine, row: Row, signal: Signal, items: seq<FilterNode>, compiles: string -> bool, rest: Args)
    returns (ts: seq<Truth>)
    requires WellTyped(row) && CompileAll(signal, items).Success?
    requires forall i :: 0 <= i < |items| ==> WellFormed(items[i], compiles) && Complete(items[i])
    ensures var c := CompileAll(signal, items).value;
            EvalAll(g, row, c.0, c.1 + rest) == Some((ts, rest))
    ensures |ts| == |items| && forall i :: 0 <= i < |items| ==> (ts[i] == True <==> Accepts(g, row, signal, items[i]))
    decreases items, 0
  {
    hide EvalSql, Compile, WellFormed, Complete, Accepts, WellTyped;
    var c := CompileAll(signal, items).value;
    if items == [] {
      ts := [];
      EvalAllSnoc(g, row, [], Blank, rest);
      assert [] + rest == rest;
    } else {
      var last := |items| - 1;
      var before := CompileAll(signal, items[..last]).value;
      var item := Compile(signal, items[last]).value;
      assert c.1 + rest == before.1 + (item.args + rest);
      ts := AllSay(g, row, signal, items[..last], compiles, item.args + rest);
      FilterPreservesMeaning(g, row, signal, items[last], compiles, rest);
      EvalAllSnoc(g, row, before.0, item.sql, c.1 + rest);
      ts := ts + [EvalSql(g, row, item.sql, item.args + rest).value.0];
    }
  }

  /** For every validated filter and row, evaluating the compiled condition while consuming
      arguments left to right is true exactly when the filter accepts the row, and uses up
      exactly the arguments compiled with it. */
  lemma {:induction false} FilterPreservesMeaning(g: Engine, row: Row, signal: Signal, node: FilterNode,
                                                  compiles: string -> bool, rest: Args)
    requires WellFormed(node, compiles) && Complete(node) && WellTyped(row)
    requires Compile(signal, node).Success?
    ensures Says(g, row, Compile(signal, node).value, rest, Accepts(g, row, signal, node))
    decreases node, 1
  {
    hide EvalSql, EvalAll, CompileLeaf, LeafHolds, PredicateError, WellTyped;
    match node
    case Logical(op, items) =>
      var ts := AllSay(g, row, signal, items, compiles, rest);
      var all := CompileAll(signal, items).value;
      JoinedEvaluates(g, row, all.0, all.1 + rest);
      JoinedTruth(ts);
    case Predicate(_, _, _) =>
      LeafSays(g, row, signal, node, compiles, rest);
  }

  lemma JoinedTruth(ts: seq<Truth>)
    ensures Conjunction(ts) == True <==> forall i :: 0 <= i < |ts| ==> ts[i] == True
    ensures Disjunction(ts) == True <==> exists i :: 0 <= i < |ts| && ts[i] == True
  {
    if Conjunction(ts) == True {
      forall i | 0 <= i < |ts| ensures ts[i] == True {
        assert ts[i] in ts;
      }
    }
  }
}
