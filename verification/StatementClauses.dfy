/** Plans, queries, and the clauses that statements are made of. */
module StatementClauses {
  import opened Fields
  import opened Filters
  import opened FilterSql
  import opened FieldCatalog
  import opened FilterCompiler
  import opened SqlText
  import opened Results
  import opened TimeLimits

  datatype ResultType = RawRows | TraceList | TimeSeries | SingleValue

  datatype Plan = Plan(startMS: int, endMS: int, resultType: ResultType, stepMS: int)

  datatype OrderTarget = ByField | ByAggregation | UnknownTarget

  datatype Order = Order(target: OrderTarget, field: FieldRef, direction: Direction)

  datatype Having = Having(relation: Relation, value: Float)

  datatype RawCursor = RawCursor(timestampNS: nat, id: string)

  datatype Common = Common(
    filter: FilterNode,
    select: seq<FieldRef>,
    groupBy: seq<FieldRef>,
    order: seq<Order>,
    limit: nat,
    offset: nat,
    cursor: string,
    after: Option<RawCursor>,
    having: Option<Having>)

  datatype StatementError =
    | UnresolvedField | UnsupportedFilter | RangeTooLate | StepTooLarge | StepNotPositive | UnsupportedSignal
    | UnsupportedCursor | UnsupportedOrder | UnsupportedAggregation

  /** A piece of SQL with the arguments collected for it. */
  datatype Clause = Clause(sql: Fragment, args: Args)

  /** The arguments are those meant for the placeholders, in text order. */
  predicate Lined(c: Clause)
  {
    Aligned(c.sql) && c.args == Wants(c.sql)
  }

  lemma LinedAppend(a: Clause, b: Clause)
    requires Lined(a) && Lined(b)
    ensures Lined(Clause(a.sql + b.sql, a.args + b.args))
  {
    WantsAppend(a.sql, b.sql);
  }

  predicate EndsWith(sql: Fragment, tail: Fragment)
  {
    |tail| <= |sql| && sql[|sql| - |tail|..] == tail
  }

  lemma EndsWithLast(a: Fragment, b: Fragment)
    ensures EndsWith(a + b, b)
  {
  }

  function IntArg(n: int): Scalar { Num(Finite(n as real)) }

  lemma LinedPair(p: Phrase, x: Scalar, q: Phrase, y: Scalar)
    ensures Lined(Clause(Bind(p, x) + Bind(q, y), [x, y]))
  {
    WantsBind(p, x);
    WantsBind(q, y);
    WantsAppend(Bind(p, x), Bind(q, y));
  }

  // ----- time -----

  /** Logs are stored by nanosecond, spans by millisecond. */
  function UnitOf(signal: Signal): TimeUnit { if signal == Logs then Nanos else Millis }

  function InUnit(ms: int, unit: TimeUnit): Scalar
  {
    IntArg(if unit == Nanos then ms * NANOS_PER_MILLI else ms)
  }

  function TimeRangeCondition(signal: Signal, plan: Plan): (r: Result<Clause, StatementError>)
    ensures signal != Traces ==>
              (r.Success? <==> signal == Logs && plan.startMS <= MAX_LOG_TIMESTAMP_MS && plan.endMS <= MAX_LOG_TIMESTAMP_MS)
    ensures r.Success? ==> Lined(r.value)
    ensures r.Success? ==> Wants(r.value.sql) == [InUnit(plan.startMS, UnitOf(signal)), InUnit(plan.endMS, UnitOf(signal))]
  {
    match signal
    case Logs =>
      if plan.startMS > MAX_LOG_TIMESTAMP_MS || plan.endMS > MAX_LOG_TIMESTAMP_MS then Failure(RangeTooLate)
      else
        var from, to := IntArg(plan.startMS * NANOS_PER_MILLI), IntArg(plan.endMS * NANOS_PER_MILLI);
        LinedPair(Since(Nanos), from, Before(Nanos), to);
        Success(Clause(Bind(Since(Nanos), from) + Bind(Before(Nanos), to), [from, to]))
    case Traces =>
      var from, to := IntArg(plan.startMS), IntArg(plan.endMS);
      LinedPair(Since(Millis), from, Before(Millis), to);
      Success(Clause(Bind(Since(Millis), from) + Bind(Before(Millis), to), [from, to]))
    case _ => Failure(UnsupportedSignal)
  }

  function TimeBucket(signal: Signal, stepMS: int): (r: Result<Clause, StatementError>)
    ensures r.Success? <==> stepMS > 0 && (signal == Traces || (signal == Logs && stepMS <= MAX_LOG_TIMESTAMP_MS))
    ensures r.Success? ==> Lined(r.value)
    ensures r.Success? ==> Wants(r.value.sql) == [InUnit(stepMS, UnitOf(signal)), IntArg(stepMS)]
  {
    if stepMS <= 0 then Failure(StepNotPositive)
    else match signal
      case Logs =>
        if stepMS > MAX_LOG_TIMESTAMP_MS then Failure(StepTooLarge)
        else
          var nanos, step := IntArg(stepMS * NANOS_PER_MILLI), IntArg(stepMS);
          LinedPair(BucketOf(Nanos), nanos, Times, step);
          Success(Clause(Bind(BucketOf(Nanos), nanos) + Bind(Times, step), [nanos, step]))
      case Traces =>
        LinedPair(BucketOf(Millis), IntArg(stepMS), Times, IntArg(stepMS));
        Success(Clause(Bind(BucketOf(Millis), IntArg(stepMS)) + Bind(Times, IntArg(stepMS)), [IntArg(stepMS), IntArg(stepMS)]))
      case _ => Failure(UnsupportedSignal)
  }

  // ----- fields -----

  /** The columns of fields, if the catalog has them all. */
  function ResolveAll(signal: Signal, fields: seq<FieldRef>): (r: Option<seq<ResolvedField>>)
    ensures r.Some? ==> |r.value| == |fields|
  {
    if fields == [] then Some([])
    else
      var last := |fields| - 1;
      var before := ResolveAll(signal, fields[..last]);
      var loc := Locate(signal, fields[last]);
      if before.None? || loc.Failure? then None else Some(before.value + [Render(loc.value)])
  }

  lemma {:induction false} ResolveAllFails(signal: Signal, fields: seq<FieldRef>, k: nat)
    requires k < |fields| && Locate(signal, fields[k]).Failure?
    ensures ResolveAll(signal, fields).None?
    decreases |fields|
  {
    hide Locate;
    if k < |fields| - 1 {
      ResolveAllFails(signal, fields[..|fields| - 1], k);
    }
  }

  function Read(field: ResolvedField): Fragment { [Reading(field.sql, field.args)] }

  function ColumnItem(field: ResolvedField, prefix: string, index: nat): Fragment
  {
    [Reading(field.sql, field.args), Word(Numbered(prefix, index))]
  }

  function Columns(fields: seq<ResolvedField>, prefix: string): seq<Fragment>
  {
    if fields == [] then []
    else Columns(fields[..|fields| - 1], prefix) + [ColumnItem(fields[|fields| - 1], prefix, |fields| - 1)]
  }

  function Reads(fields: seq<ResolvedField>): seq<Fragment>
  {
    if fields == [] then [] else Reads(fields[..|fields| - 1]) + [Read(fields[|fields| - 1])]
  }

  function ArgsOf(fields: seq<ResolvedField>): Args
  {
    if fields == [] then [] else ArgsOf(fields[..|fields| - 1]) + fields[|fields| - 1].args
  }

  lemma ListsGrow(fields: seq<ResolvedField>, field: ResolvedField, prefix: string)
    ensures Columns(fields + [field], prefix) == Columns(fields, prefix) + [ColumnItem(field, prefix, |fields|)]
    ensures Reads(fields + [field]) == Reads(fields) + [Read(field)]
    ensures ArgsOf(fields + [field]) == ArgsOf(fields) + field.args
  {
    hide ColumnItem, Read;
    assert (fields + [field])[..|fields|] == fields;
  }

  lemma ResolveNext(signal: Signal, fields: seq<FieldRef>, i: nat)
    requires i < |fields| && ResolveAll(signal, fields[..i]).Some? && Locate(signal, fields[i]).Success?
    ensures ResolveAll(signal, fields[..i + 1]) ==
            Some(ResolveAll(signal, fields[..i]).value + [Render(Locate(signal, fields[i]).value)])
  {
    hide Locate, Render;
    assert fields[..i + 1][..i] == fields[..i];
  }

  lemma LinedRead(signal: Signal, field: FieldRef, prefix: string, index: nat)
    requires Locate(signal, field).Success?
    ensures var f := Render(Locate(signal, field).value);
            Lined(Clause(Read(f), f.args)) && Lined(Clause(ColumnItem(f, prefix, index), f.args))
  {
    hide Locate;
    var f := Render(Locate(signal, field).value);
    RenderedSlots(Locate(signal, field).value);
    WantsOne(Reading(f.sql, f.args));
    WantsWord(Numbered(prefix, index));
    WantsAppend(Read(f), [Word(Numbered(prefix, index))]);
    assert ColumnItem(f, prefix, index) == Read(f) + [Word(Numbered(prefix, index))];
    assert f.args + [] == f.args;
  }

  /** Both lists of columns want the arguments of their fields, in order. */
  lemma {:induction false} WantsFields(signal: Signal, fields: seq<FieldRef>, prefix: string)
    requires ResolveAll(signal, fields).Some?
    ensures var f := ResolveAll(signal, fields).value;
            && WantsOfAll(Columns(f, prefix)) == ArgsOf(f) && AllAligned(Columns(f, prefix))
            && WantsOfAll(Reads(f)) == ArgsOf(f) && AllAligned(Reads(f))
            && |Columns(f, prefix)| == |f| == |Reads(f)|
  {
    hide Locate, Render, Wants, Aligned, ColumnItem, Read;
    if fields != [] {
      var last := |fields| - 1;
      WantsFields(signal, fields[..last], prefix);
      LinedRead(signal, fields[last], prefix, last);
      var f := ResolveAll(signal, fields).value;
      assert f[..last] == ResolveAll(signal, fields[..last]).value;
      var c, r := Columns(f, prefix), Reads(f);
      assert c == Columns(f[..last], prefix) + [c[last]] && r == Reads(f[..last]) + [r[last]];
      AlignedParts(Columns(f[..last], prefix), c[last]);
      AlignedParts(Reads(f[..last]), r[last]);
    }
  }

  // ----- filters -----

  /** Range and filter of one table. */
  function CompileWhere(signal: Signal, filter: FilterNode, plan: Plan): (r: Result<Clause, StatementError>)
    ensures r.Success? ==> Lined(r.value)
  {
    var range := TimeRangeCondition(signal, plan);
    if range.Failure? then range
    else if filter == NilFilter then range
    else
      var c := Compile(signal, filter);
      if c.Failure? then Failure(UnsupportedFilter)
      else
        LinedWhere(signal, range.value, filter);
        Success(Clause([Word(Open)] + range.value.sql + [Word(CloseAndOpen)] + [Testing(c.value.sql, c.value.args)] + [Word(Close)],
                       range.value.args + c.value.args))
  }

  /** The clause is the range and, unless missing, the filter; the arguments of the range come
      before those compiled for the filter. */
  lemma WhereIsRangeAndFilter(signal: Signal, filter: FilterNode, plan: Plan)
    ensures CompileWhere(signal, filter, plan).Success? <==>
              && (filter == NilFilter || Compile(signal, filter).Success?)
              && (signal == Traces
                  || (signal == Logs && plan.startMS <= MAX_LOG_TIMESTAMP_MS && plan.endMS <= MAX_LOG_TIMESTAMP_MS))
    ensures CompileWhere(signal, filter, plan).Success? ==>
              var sql := CompileWhere(signal, filter, plan).value.sql;
              var bounds := [InUnit(plan.startMS, UnitOf(signal)), InUnit(plan.endMS, UnitOf(signal))];
              && Wants(sql) == bounds + (if filter == NilFilter then [] else Compile(signal, filter).value.args)
              && TimeRangeCondition(signal, plan).value.sql <= sql[if filter == NilFilter then 0 else 1..]
              && (filter != NilFilter ==>
                    Testing(Compile(signal, filter).value.sql, Compile(signal, filter).value.args) in sql)
  {
    hide Compile, Wants, Aligned;
    if filter != NilFilter && CompileWhere(signal, filter, plan).Success? {
      var c, range := Compile(signal, filter).value, TimeRangeCondition(signal, plan).value;
      var sql := CompileWhere(signal, filter, plan).value.sql;
      assert sql[|range.sql| + 2] == Testing(c.sql, c.args);
      assert sql[1..] == range.sql + [Word(CloseAndOpen), Testing(c.sql, c.args), Word(Close)];
    }
  }

  lemma LinedTesting(signal: Signal, filter: FilterNode)
    requires Compile(signal, filter).Success?
    ensures var c := Compile(signal, filter).value; Lined(Clause([Testing(c.sql, c.args)], c.args))
  {
    hide Compile;
    FilterSlots(signal, filter);
    WantsOne(Testing(Compile(signal, filter).value.sql, Compile(signal, filter).value.args));
  }

  lemma LinedWhere(signal: Signal, range: Clause, filter: FilterNode)
    requires Lined(range) && Compile(signal, filter).Success?
    ensures var c := Compile(signal, filter).value;
            Lined(Clause([Word(Open)] + range.sql + [Word(CloseAndOpen)] + [Testing(c.sql, c.args)] + [Word(Close)], range.args + c.args))
  {
    hide Compile, Wants, Aligned;
    var c := Compile(signal, filter).value;
    LinedTesting(signal, filter);
    WantsWord(Open);
    WantsWord(CloseAndOpen);
    WantsWord(Close);
    WantsAppend([Word(Open)], range.sql);
    WantsAppend([Word(Open)] + range.sql, [Word(CloseAndOpen)]);
    WantsAppend([Word(Open)] + range.sql + [Word(CloseAndOpen)], [Testing(c.sql, c.args)]);
    WantsAppend([Word(Open)] + range.sql + [Word(CloseAndOpen)] + [Testing(c.sql, c.args)], [Word(Close)]);
    assert [] + range.args == range.args && range.args + [] == range.args;
  }

  // ----- order -----

  function OrderItem(signal: Signal, o: Order, aggregation: bool): Option<Fragment>
  {
    match o.target
    case ByAggregation => if aggregation then Some([Word(Sorted("value", o.direction))]) else None
    case ByField =>
      var loc := Locate(signal, o.field);
      if loc.Failure? then None else Some(Read(Render(loc.value)) + [Word(SortedBy(o.direction))])
    case UnknownTarget => None
  }

  function OrderItems(signal: Signal, orders: seq<Order>, aggregation: bool): Option<seq<Fragment>>
  {
    if orders == [] then Some([])
    else
      var last := |orders| - 1;
      var before := OrderItems(signal, orders[..last], aggregation);
      var item := OrderItem(signal, orders[last], aggregation);
      if before.None? || item.None? then None else Some(before.value + [item.value])
  }

  lemma {:induction false} OrderItemsFail(signal: Signal, orders: seq<Order>, aggregation: bool, k: nat)
    requires k < |orders| && OrderItem(signal, orders[k], aggregation).None?
    ensures OrderItems(signal, orders, aggregation).None?
    decreases |orders|
  {
    hide OrderItem;
    if k < |orders| - 1 {
      OrderItemsFail(signal, orders[..|orders| - 1], aggregation, k);
    }
  }

  function OrderText(signal: Signal, orders: seq<Order>, aggregation: bool, fallback: Fragment): Option<Fragment>
  {
    if orders == [] then Some(fallback)
    else
      var items := OrderItems(signal, orders, aggregation);
      if items.None? then None else Some(Joined(items.value))
  }

  method CompileOrderItem(signal: Signal, o: Order, aggregation: bool) returns (r: Result<Clause, StatementError>)
    ensures r.Success? <==> OrderItem(signal, o, aggregation).Some?
    ensures r.Success? ==> r.value.sql == OrderItem(signal, o, aggregation).value && Lined(r.value)
  {
    hide Locate, Render, Wants, Aligned;
    match o.target {
      case ByAggregation =>
        if !aggregation {
          return Failure(UnsupportedOrder);
        }
        WantsWord(Sorted("value", o.direction));
        r := Success(Clause([Word(Sorted("value", o.direction))], []));
      case ByField =>
        var loc: Located := Locate(signal, o.field);
        if loc.Failure? {
          return Failure(UnresolvedField);
        }
        var field := Render(loc.value);
        LinedRead(signal, o.field, "", 0);
        WantsWord(SortedBy(o.direction));
        WantsAppend(Read(field), [Word(SortedBy(o.direction))]);
        r := Success(Clause(Read(field) + [Word(SortedBy(o.direction))], field.args));
      case UnknownTarget =>
        r := Failure(UnsupportedOrder);
    }
  }

  method CompileOrder(signal: Signal, orders: seq<Order>, aggregation: bool, fallback: Fragment)
    returns (r: Result<Clause, StatementError>)
    requires Lined(Clause(fallback, []))
    ensures r.Success? <==> OrderText(signal, orders, aggregation, fallback).Some?
    ensures r.Success? ==> r.value.sql == OrderText(signal, orders, aggregation, fallback).value && Lined(r.value)
  {
    hide OrderItem, Wants, Aligned, AllAligned, Joined;
    if |orders| == 0 {
      return Success(Clause(fallback, []));
    }
    var parts: seq<Fragment>, args: Args := [], [];
    NothingAligned();
    for i := 0 to |orders|
      invariant OrderItems(signal, orders[..i], aggregation) == Some(parts)
      invariant args == WantsOfAll(parts) && AllAligned(parts)
    {
      assert orders[..i + 1][..i] == orders[..i];
      var item: Result<Clause, StatementError> := CompileOrderItem(signal, orders[i], aggregation);
      if item.Failure? {
        OrderItemsFail(signal, orders, aggregation, i);
        return Failure(item.error);
      }
      AlignedParts(parts, item.value.sql);
      parts, args := parts + [item.value.sql], args + item.value.args;
    }
    assert orders[..|orders|] == orders;
    WantsJoined(parts);
    r := Success(Clause(Joined(parts), args));
  }
}
