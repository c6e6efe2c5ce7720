/** Where in its text a statement receives which value, spelled out. */
module StatementValues {
  import opened Fields
  import opened Filters
  import opened FilterSql
  import opened FieldCatalog
  import opened FilterCompiler
  import opened SqlText
  import opened StatementClauses
  import opened Statements
  import opened MetricStatements
  import opened Results

  // ----- parts of a text -----

  predicate At(sql: Fragment, i: nat, part: Fragment)
  {
    i + |part| <= |sql| && sql[i..i + |part|] == part
  }

  ghost predicate Contains(sql: Fragment, part: Fragment)
  {
    exists i :: At(sql, i, part)
  }

  lemma ContainsHere(a: Fragment, part: Fragment, b: Fragment)
    ensures Contains(a + part + b, part)
  {
    assert At(a + part + b, |a|, part);
  }

  lemma ContainsInside(a: Fragment, sql: Fragment, b: Fragment, part: Fragment)
    requires Contains(sql, part)
    ensures Contains(a + sql + b, part)
  {
    var i :| At(sql, i, part);
    assert At(a + sql + b, |a| + i, part);
  }

  lemma ContainsItself(part: Fragment)
    ensures Contains(part, part)
  {
    assert At(part, 0, part);
  }

  lemma EndsAfter(a: Fragment, b: Fragment)
    ensures EndsWith(a + b, b)
  {
  }

  // ----- ranges and buckets -----

  function Number(n: int): Scalar { Num(Finite(n as real)) }

  /** A half-open range of instants in one unit. */
  function RangeOf(unit: TimeUnit, from: int, to: int): Fragment
  {
    [Word(Since(unit)), Placeholder(Number(from)), Word(Before(unit)), Placeholder(Number(to))]
  }

  /** Logs are selected by nanosecond and spans by millisecond, from the start on and before the end. */
  lemma RangeIs(signal: Signal, plan: Plan)
    ensures var r := TimeRangeCondition(signal, plan);
            r.Success? ==>
              r.value.sql == if signal == Logs then RangeOf(Nanos, plan.startMS * 1000000, plan.endMS * 1000000)
                             else RangeOf(Millis, plan.startMS, plan.endMS)
  {
  }

  /** A bucket is the stored instant divided by the step in its unit, times the step. */
  function BucketIn(unit: TimeUnit, divisor: int, factor: int): Fragment
  {
    [Word(BucketOf(unit)), Placeholder(Number(divisor)), Word(Times), Placeholder(Number(factor))]
  }

  lemma BucketIs(signal: Signal, stepMS: int)
    ensures var r := TimeBucket(signal, stepMS);
            r.Success? ==>
              r.value.sql == if signal == Logs then BucketIn(Nanos, stepMS * 1000000, stepMS) else BucketIn(Millis, stepMS, stepMS)
  {
  }

  /** The range and the filter of a table. */
  lemma WhereIs(signal: Signal, filter: FilterNode, plan: Plan)
    requires CompileWhere(signal, filter, plan).Success?
    ensures var sql := CompileWhere(signal, filter, plan).value.sql;
            && Contains(sql, if signal == Logs then RangeOf(Nanos, plan.startMS * 1000000, plan.endMS * 1000000)
                             else RangeOf(Millis, plan.startMS, plan.endMS))
            && (filter != NilFilter ==>
                  Compile(signal, filter).Success?
                  && Testing(Compile(signal, filter).value.sql, Compile(signal, filter).value.args) in sql)
  {
    hide Compile, RangeOf, Contains, InUnit;
    RangeIs(signal, plan);
    var range := TimeRangeCondition(signal, plan).value.sql;
    if filter == NilFilter {
      ContainsItself(range);
    } else {
      WhereIsRangeAndFilter(signal, filter, plan);
      var c := Compile(signal, filter).value;
      var rest := [Word(CloseAndOpen)] + [Testing(c.sql, c.args)] + [Word(Close)];
      ContainsHere([Word(Open)], range, rest);
      assert CompileWhere(signal, filter, plan).value.sql == [Word(Open)] + range + rest;
    }
  }

  /** A text with a part at its place. */
  lemma Placed(sql: Fragment, a: Fragment, part: Fragment, b: Fragment)
    requires sql == a + part + b
    ensures Contains(sql, part)
    ensures forall inner :: Contains(part, inner) ==> Contains(sql, inner)
  {
    ContainsHere(a, part, b);
    forall inner | Contains(part, inner) ensures Contains(sql, inner) {
      ContainsInside(a, part, b, inner);
    }
  }

  /** Every part of the second is a part of the first. */
  ghost predicate Inherits(sql: Fragment, part: Fragment)
  {
    forall p :: Contains(part, p) ==> Contains(sql, p)
  }

  lemma Use(sql: Fragment, part: Fragment, p: Fragment)
    requires Inherits(sql, part) && Contains(part, p)
    ensures Contains(sql, p)
  {
    hide Contains;
  }

  // ----- logs and traces -----

  /** The range a statement over logs or spans selects. */
  function StoredRange(signal: Signal, plan: Plan): Fragment
  {
    if signal == Logs then RangeOf(Nanos, plan.startMS * 1000000, plan.endMS * 1000000)
    else RangeOf(Millis, plan.startMS, plan.endMS)
  }

  /** Rows behind a cursor: a later instant, or the same one and a later id. */
  function Behind(after: RawCursor): Fragment
  {
    [Word(AfterTimestamp), Placeholder(Number(after.timestampNS)), Word(AtTimestamp), Placeholder(Number(after.timestampNS)),
     Word(AfterId), Placeholder(Str(after.id))]
  }

  /** The compiled filter, with its arguments. */
  function FilterTest(signal: Signal, filter: FilterNode): Fragment
  {
    var c := Compile(signal, filter);
    if c.Success? then [Testing(c.value.sql, c.value.args)] else []
  }

  lemma RawValues(signal: Signal, plan: Plan, common: Common)
    requires RawText(signal, plan, common).Some?
    ensures var sql := RawText(signal, plan, common).value;
            && Contains(sql, StoredRange(signal, plan))
            && (common.filter != NilFilter ==> Compile(signal, common.filter).Success? && Contains(sql, FilterTest(signal, common.filter)))
            && (common.after.Some? ==> signal == Logs && Contains(sql, Behind(common.after.value)))
  {
    hide Contains, CompileWhere, ResolveAll, Columns, WithDetails, OrderText, PageText, TieBreaker, Table, StoredRange, RangeOf,
      AfterText, Behind, RawFields, Joined, FilterTest, Compile;
    var where := CompileWhere(signal, common.filter, plan).value.sql;
    WhereHasRange(signal, common.filter, plan);
    var columns := Columns(ResolveAll(signal, RawFields(signal, common.select)).value, "field_");
    var selects := if signal == Logs && common.select == [] then WithDetails(columns, DETAIL_COUNT) else columns;
    var order := OrderText(signal, common.order, false, DefaultRawOrder(signal, common.after.Some?)).value;
    var before := [Word(Select)] + Joined(selects) + [Word(From(Table(signal))), Word(Where)];
    var rest := [Word(OrderBy)] + (order + TieBreaker(signal, common.order)) + PageText(common);
    var whole := RawWhere(where, common.after);
    RawWhereHolds(signal, where, common.after, StoredRange(signal, plan));
    if common.filter != NilFilter {
      RawWhereHolds(signal, where, common.after, FilterTest(signal, common.filter));
    }
    Regrouped(before, whole, [Word(OrderBy)], order + TieBreaker(signal, common.order), PageText(common));
    Placed(RawText(signal, plan, common).value, before, whole, rest);
  }

  lemma Regrouped(a: Fragment, b: Fragment, c: Fragment, d: Fragment, e: Fragment)
    ensures a + b + c + d + e == a + b + (c + d + e)
  {
  }

  lemma WhereHasRange(signal: Signal, filter: FilterNode, plan: Plan)
    requires CompileWhere(signal, filter, plan).Success?
    ensures Contains(CompileWhere(signal, filter, plan).value.sql, StoredRange(signal, plan))
    ensures filter != NilFilter ==>
              Compile(signal, filter).Success? && Contains(CompileWhere(signal, filter, plan).value.sql, FilterTest(signal, filter))
  {
    hide CompileWhere, Contains, RangeOf, Compile;
    WhereIs(signal, filter, plan);
    if filter != NilFilter {
      var test := FilterTest(signal, filter)[0];
      var sql := CompileWhere(signal, filter, plan).value.sql;
      var i :| 0 <= i < |sql| && sql[i] == test;
      ContainsHere(sql[..i], [test], sql[i + 1..]);
      assert sql == sql[..i] + [test] + sql[i + 1..];
    }
  }

  lemma RawWhereHolds(signal: Signal, where: Fragment, after: Option<RawCursor>, range: Fragment)
    requires Contains(where, range)
    ensures Contains(RawWhere(where, after), range)
    ensures after.Some? ==> Contains(RawWhere(where, after), Behind(after.value))
  {
    hide Contains;
    if after.Some? {
      AfterTextIs(after.value);
      hide AfterText, Behind;
      Placed([Word(Open)] + where + AfterText(after.value), [Word(Open)], where, AfterText(after.value));
      assert [Word(Open)] + where + AfterText(after.value) + [] == [Word(Open)] + where + AfterText(after.value);
      Placed([Word(Open)] + where + AfterText(after.value), [Word(Open)] + where, AfterText(after.value), []);
    }
  }

  lemma AfterTextIs(after: RawCursor)
    ensures AfterText(after) == Behind(after)
  {
  }

  /** The predicate on an aggregated value: the value, the comparison, the number. */
  function HavingPart(aggregation: Fragment, h: Having): Fragment
  {
    aggregation + [Word(Compared(h.relation)), Placeholder(Num(h.value))]
  }

  lemma HavingHolds(h: Having, aggregation: Fragment)
    ensures Contains(HavingText(Some(h), aggregation), HavingPart(aggregation, h))
  {
    assert HavingText(Some(h), aggregation) == [Word(Fixed(" HAVING "))] + HavingPart(aggregation, h) + [];
    ContainsHere([Word(Fixed(" HAVING "))], HavingPart(aggregation, h), []);
  }

  function StoredBucket(signal: Signal, stepMS: int): Fragment
  {
    if signal == Logs then BucketIn(Nanos, stepMS * 1000000, stepMS) else BucketIn(Millis, stepMS, stepMS)
  }

  lemma {:induction false} JoinedHolds(parts: seq<Fragment>, k: nat)
    requires k < |parts|
    ensures Contains(Joined(parts), parts[k])
    decreases |parts|
  {
    hide Contains;
    var last := |parts| - 1;
    if last == 0 {
      ContainsItself(parts[0]);
    } else {
      var before := Joined(parts[..last]);
      if k == last {
        assert Joined(parts) == (before + [Word(Comma)]) + parts[last] + [];
        ContainsHere(before + [Word(Comma)], parts[last], []);
      } else {
        JoinedHolds(parts[..last], k);
        assert Joined(parts) == [] + before + ([Word(Comma)] + parts[last]);
        ContainsInside([], before, [Word(Comma)] + parts[last], parts[k]);
      }
    }
  }

  lemma {:induction false} JoinedStarts(parts: seq<Fragment>) returns (rest: Fragment)
    requires parts != []
    ensures Joined(parts) == parts[0] + rest
  {
    if |parts| == 1 {
      rest := [];
    } else {
      rest := JoinedStarts(parts[..|parts| - 1]);
      rest := rest + [Word(Comma)] + parts[|parts| - 1];
    }
  }

  /** The bucket is the first column and the first group. */
  lemma BucketHolds(signal: Signal, plan: Plan, fields: seq<ResolvedField>, aggregation: Fragment)
    requires plan.resultType == TimeSeries && BucketText(signal, plan).Success?
    ensures var bucket := BucketText(signal, plan).value;
            && plan.stepMS > 0
            && Contains(Joined(AggregateSelects(bucket, fields, aggregation)),
                        StoredBucket(signal, plan.stepMS) + [Word(Aliased("timestamp"))])
            && Contains(GroupText(AggregateGroups(bucket, fields)), [Word(GroupBy)] + StoredBucket(signal, plan.stepMS))
  {
    BucketIs(signal, plan.stepMS);
    var bucket := BucketText(signal, plan).value;
    hide Contains, BucketIn, Joined, Columns, Reads, TimeBucket;
    var selects, groups := AggregateSelects(bucket, fields, aggregation), AggregateGroups(bucket, fields);
    assert selects[0] == StoredBucket(signal, plan.stepMS) + [Word(Aliased("timestamp"))];
    JoinedHolds(selects, 0);
    assert groups[0] == StoredBucket(signal, plan.stepMS);
    var rest := JoinedStarts(groups);
    assert GroupText(groups) == [] + ([Word(GroupBy)] + groups[0]) + rest;
    ContainsHere([], [Word(GroupBy)] + groups[0], rest);
  }

  lemma AggregateValues(signal: Signal, plan: Plan, common: Common, aggregation: Fragment)
    requires AggregateText(signal, plan, common, aggregation).Some?
    ensures var sql := AggregateText(signal, plan, common, aggregation).value;
            && Contains(sql, StoredRange(signal, plan))
            && (common.filter != NilFilter ==> Compile(signal, common.filter).Success? && Contains(sql, FilterTest(signal, common.filter)))
            && (common.having.Some? ==> Contains(sql, HavingPart(aggregation, common.having.value)))
            && (plan.resultType == TimeSeries ==>
                  && plan.stepMS > 0
                  && Contains(sql, StoredBucket(signal, plan.stepMS) + [Word(Aliased("timestamp"))])
                  && Contains(sql, [Word(GroupBy)] + StoredBucket(signal, plan.stepMS)))
  {
    hide Contains, CompileWhere, ResolveAll, AggregateSelects, AggregateGroups, OrderText, GroupText, LimitText, Table, StoredRange,
      RangeOf, HavingText, HavingPart, Joined, StoredBucket, BucketText, FilterTest, Compile;
    var bucket := BucketText(signal, plan).value;
    var fields := ResolveAll(signal, common.groupBy).value;
    var where := CompileWhere(signal, common.filter, plan).value.sql;
    var order := OrderText(signal, common.order, true, DefaultAggregateOrder(plan)).value;
    var before := [Word(Select)] + Joined(AggregateSelects(bucket, fields, aggregation)) + [Word(From(Table(signal))), Word(Where)];
    var groups, having := GroupText(AggregateGroups(bucket, fields)), HavingText(common.having, aggregation);
    var rest := [Word(OrderBy)] + order + LimitText(common.limit);
    WhereHasRange(signal, common.filter, plan);
    SixParts(before, where, groups, having, [Word(OrderBy)], order, LimitText(common.limit));
    var sql := AggregateText(signal, plan, common, aggregation).value;
    Placed(sql, before, where, groups + having + rest);
    if plan.resultType == TimeSeries {
      BucketHolds(signal, plan, fields, aggregation);
      var list := Joined(AggregateSelects(bucket, fields, aggregation));
      Regrouped([Word(Select)], list, [Word(From(Table(signal))), Word(Where)], where + groups + having, rest);
      assert sql == [Word(Select)] + list + ([Word(From(Table(signal))), Word(Where)] + (where + groups + having) + rest);
      Placed(sql, [Word(Select)], list, [Word(From(Table(signal))), Word(Where)] + (where + groups + having) + rest);
      Placed(sql, before + where, groups, having + rest);
    }
    if common.having.Some? {
      HavingHolds(common.having.value, aggregation);
      Placed(sql, before + where + groups, having, rest);
    }
  }

  lemma SixParts(a: Fragment, b: Fragment, c: Fragment, d: Fragment, e: Fragment, f: Fragment, g: Fragment)
    ensures a + b + c + d + e + f + g == a + b + (c + d + (e + f + g))
    ensures a + b + c + d + e + f + g == (a + b + c) + d + (e + f + g)
  {
  }

  /** Both ranges of a trace summary, that of the matching condition and that of the spans. */
  lemma SummaryValues(plan: Plan, common: Common) returns (a: Fragment, b: Fragment, c: Fragment)
    requires TraceSummaryText(plan, common).Some?
    ensures var range := RangeOf(Millis, plan.startMS, plan.endMS);
            TraceSummaryText(plan, common).value == a + range + (b + range + c)
    ensures common.filter != NilFilter ==>
              && Compile(Traces, common.filter).Success? && Contains(b, FilterTest(Traces, common.filter))
  {
    hide CompileWhere, Locate, Render, TraceOrderItems, PageText, RangeOf, Joined, Contains, Compile, FilterTest;
    RangeIs(Traces, plan);
    hide TimeRangeCondition;
    var range := RangeOf(Millis, plan.startMS, plan.endMS);
    var where := CompileWhere(Traces, common.filter, plan).value.sql;
    var x, y := WhereSplits(common.filter, plan);
    var service := Render(Locate(Traces, SERVICE).value);
    var order: seq<Fragment> :=
      if common.order == [] then [[Word(Fixed("timestamp DESC, trace_id DESC"))]] else TraceOrderItems(common.order).value;
    var words := [Word(EndCte), Word(Cte("__lite_trace_spans"))] + Read(service) + [Word(Aliased("service_name")), Word(Where)];
    var first, stats := [Word(Cte("__lite_matching_traces"))], [Word(Cte("__lite_trace_stats, __lite_roots")), Word(OrderBy)];
    a, b, c := first + x, y + words, stats + Joined(order) + PageText(common);
    assert TraceSummaryText(plan, common).value ==
           first + where + [Word(EndCte), Word(Cte("__lite_trace_spans"))] + Read(service)
           + [Word(Aliased("service_name")), Word(Where)] + range + stats + Joined(order) + PageText(common);
    SummaryParts(first, x, range, y, [Word(EndCte), Word(Cte("__lite_trace_spans"))], Read(service),
                 [Word(Aliased("service_name")), Word(Where)], stats, Joined(order), PageText(common));
    if common.filter != NilFilter {
      ContainsInside([], y, words, FilterTest(Traces, common.filter));
      assert [] + y + words == b;
    }
  }

  /** The condition of a table is its range and behind it the filter. */
  lemma WhereSplits(filter: FilterNode, plan: Plan) returns (x: Fragment, y: Fragment)
    requires CompileWhere(Traces, filter, plan).Success?
    ensures CompileWhere(Traces, filter, plan).value.sql == x + RangeOf(Millis, plan.startMS, plan.endMS) + y
    ensures filter != NilFilter ==> Compile(Traces, filter).Success? && Contains(y, FilterTest(Traces, filter))
  {
    hide Compile, RangeOf, Contains;
    RangeIs(Traces, plan);
    hide TimeRangeCondition;
    var range := RangeOf(Millis, plan.startMS, plan.endMS);
    if filter == NilFilter {
      x, y := [], [];
      assert [] + range + [] == range;
    } else {
      x, y := [Word(Open)], [Word(CloseAndOpen)] + FilterTest(Traces, filter) + [Word(Close)];
      ContainsHere([Word(CloseAndOpen)], FilterTest(Traces, filter), [Word(Close)]);
      assert CompileWhere(Traces, filter, plan).value.sql == x + range + y;
    }
  }

  lemma Splits(sql: Fragment, i: nat, part: Fragment)
    requires At(sql, i, part)
    ensures sql == sql[..i] + part + sql[i + |part|..]
  {
  }

  lemma SummaryParts(first: Fragment, x: Fragment, range: Fragment, y: Fragment, words: Fragment, service: Fragment,
                     more: Fragment, stats: Fragment, order: Fragment, page: Fragment)
    ensures first + (x + range + y) + words + service + more + range + stats + order + page ==
            first + x + range + (y + (words + service + more) + range + (stats + order + page))
  {
  }

  function SummaryNames(): set<string>
  {
    {"trace_id", "timestamp", "span_count", "duration_nano", "trace_duration", "service.name", "name"}
  }

  /** Two of the names a summary can be ordered by stand for columns of another name. */
  function SummaryColumn(name: string): string
  {
    if name == "trace_duration" then "duration_nano" else if name == "service.name" then "service_name" else name
  }

  predicate OrdersSummary(o: Order) { o.target == ByField && o.field.name in SummaryNames() }

  lemma {:induction false} SummaryOrderItems(orders: seq<Order>)
    ensures TraceOrderItems(orders).Some? <==> forall k :: 0 <= k < |orders| ==> OrdersSummary(orders[k])
    ensures TraceOrderItems(orders).Some? ==>
              var items := TraceOrderItems(orders).value;
              && |items| == |orders|
              && forall k :: 0 <= k < |orders| ==> items[k] == [Word(Sorted(SummaryColumn(orders[k].field.name), orders[k].direction))]
  {
    if orders != [] {
      var last := |orders| - 1;
      SummaryOrderItems(orders[..last]);
      AliasIs(orders[last].field.name);
      hide TraceAlias, SummaryColumn, SummaryNames;
      assert orders == orders[..last] + [orders[last]];
    }
  }

  lemma AliasIs(name: string)
    ensures TraceAlias(name) == if name in SummaryNames() then Some(SummaryColumn(name)) else None
  {
  }

  /** A summary reads the service of its spans, and is ordered by the columns asked for or latest
      first; any other order is refused. */
  lemma SummaryOrderIs(plan: Plan, common: Common)
    ensures (exists k :: 0 <= k < |common.order| && !OrdersSummary(common.order[k])) ==> TraceSummaryText(plan, common).None?
    ensures TraceSummaryText(plan, common).Some? ==>
              var sql := TraceSummaryText(plan, common).value;
              var service := FieldRef("service.name", Resource, StringType);
              && Locate(Traces, service).Success?
              && Contains(sql, [ReadingOf(Traces, service), Word(Aliased("service_name"))])
              && (common.order == [] ==> Contains(sql, [Word(Fixed("timestamp DESC, trace_id DESC"))]))
              && forall k :: 0 <= k < |common.order| ==>
                   Contains(sql, [Word(Sorted(SummaryColumn(common.order[k].field.name), common.order[k].direction))])
  {
    hide CompileWhere, Locate, Render, TraceOrderItems, PageText, TimeRangeCondition, Joined, Contains, OrdersSummary, SummaryColumn,
      Inherits;
    SummaryOrderItems(common.order);
    if TraceSummaryText(plan, common).Some? {
      var order: seq<Fragment> :=
        if common.order == [] then [[Word(Fixed("timestamp DESC, trace_id DESC"))]] else TraceOrderItems(common.order).value;
      var sql := TraceSummaryText(plan, common).value;
      SummaryShape(plan, common, order);
      hide TraceSummaryText;
      forall k | 0 <= k < |order| ensures Contains(sql, order[k]) {
        JoinedHolds(order, k);
        Use(sql, Joined(order), order[k]);
      }
      if common.order == [] {
        assert Contains(sql, order[0]);
      }
    }
  }

  lemma SummaryShape(plan: Plan, common: Common, order: seq<Fragment>)
    requires TraceSummaryText(plan, common).Some?
    requires order == if common.order == [] then [[Word(Fixed("timestamp DESC, trace_id DESC"))]] else TraceOrderItems(common.order).value
    ensures Locate(Traces, SERVICE).Success?
    ensures Contains(TraceSummaryText(plan, common).value, [ReadingOf(Traces, SERVICE), Word(Aliased("service_name"))])
    ensures Inherits(TraceSummaryText(plan, common).value, Joined(order))
  {
    hide CompileWhere, Locate, Render, TraceOrderItems, PageText, TimeRangeCondition, Joined, Contains, Inherits;
    var where, range := CompileWhere(Traces, common.filter, plan).value.sql, TimeRangeCondition(Traces, plan).value.sql;
    ServiceParts([Word(Cte("__lite_matching_traces"))], where, [Word(EndCte), Word(Cte("__lite_trace_spans"))],
                 Read(Render(Locate(Traces, SERVICE).value)), Word(Aliased("service_name")), Word(Where), range,
                 [Word(Cte("__lite_trace_stats, __lite_roots")), Word(OrderBy)], Joined(order), PageText(common));
    assert Read(Render(Locate(Traces, SERVICE).value)) + [Word(Aliased("service_name"))]
        == [ReadingOf(Traces, SERVICE), Word(Aliased("service_name"))];
  }

  lemma ServiceParts(a: Fragment, b: Fragment, c: Fragment, d: Fragment, e: Piece, f: Piece, g: Fragment, h: Fragment, i: Fragment,
                     j: Fragment)
    ensures var sql := a + b + c + d + [e, f] + g + h + i + j;
            Contains(sql, d + [e]) && Inherits(sql, i)
  {
    hide Contains;
    var sql := a + b + c + d + [e, f] + g + h + i + j;
    assert sql == (a + b + c) + (d + [e]) + ([f] + g + h + i + j);
    Placed(sql, a + b + c, d + [e], [f] + g + h + i + j);
    Placed(sql, a + b + c + d + [e, f] + g + h, i, j);
  }

  // ----- order -----

  /** The order of raw rows: the listed fields and, unless one of them tells rows apart, the id in
      the direction of the last; by default the latest first, or the earliest behind a cursor. */
  lemma RawOrderIs(signal: Signal, plan: Plan, common: Common)
    requires RawText(signal, plan, common).Some?
    ensures var sql := RawText(signal, plan, common).value;
            if common.order == [] then
              Contains(sql, [Word(OrderBy), Word(Fixed(
                if common.after.Some? then "timestamp ASC, id ASC"
                else if signal == Logs then "timestamp DESC, id DESC" else "timestamp DESC, span_id DESC"))])
            else
              var direction := common.order[|common.order| - 1].direction;
              var id := if signal == Traces then "span_id" else "id";
              && (forall k :: 0 <= k < |common.order| ==>
                    OrderItem(signal, common.order[k], false).Some?
                    && Contains(sql, OrderItem(signal, common.order[k], false).value))
              && (!HasTieBreaker(signal, common.order) ==> Contains(sql, [Word(Sorted(id, direction))]))
  {
    hide Contains, CompileWhere, ResolveAll, Columns, WithDetails, OrderText, PageText, Table, RawFields, Joined, RawWhere,
      HasTieBreaker, OrderItem;
    var where := RawWhere(CompileWhere(signal, common.filter, plan).value.sql, common.after);
    var columns := Columns(ResolveAll(signal, RawFields(signal, common.select)).value, "field_");
    var selects := if signal == Logs && common.select == [] then WithDetails(columns, DETAIL_COUNT) else columns;
    var fallback := DefaultRawOrder(signal, common.after.Some?);
    var order, tie := OrderText(signal, common.order, false, fallback).value, TieBreaker(signal, common.order);
    var before := [Word(Select)] + Joined(selects) + [Word(From(Table(signal))), Word(Where)] + where;
    var sql := RawText(signal, plan, common).value;
    assert sql == before + ([Word(OrderBy)] + (order + tie)) + PageText(common);
    Placed(sql, before, [Word(OrderBy)] + (order + tie), PageText(common));
    OrderHolds(signal, common.order, false, fallback);
    if common.order == [] {
      assert [Word(OrderBy)] + (order + tie) == [] + ([Word(OrderBy)] + fallback) + tie;
      assert [Word(OrderBy)] + fallback == [Word(OrderBy), fallback[0]];
      ContainsHere([], [Word(OrderBy)] + fallback, tie);
    } else {
      assert [Word(OrderBy)] + (order + tie) == [Word(OrderBy)] + order + tie;
      Placed([Word(OrderBy)] + (order + tie), [Word(OrderBy)], order, tie);
      assert [Word(OrderBy)] + (order + tie) == ([Word(OrderBy)] + order) + tie + [];
      ContainsHere([Word(OrderBy)] + order, tie, []);
    }
  }

  lemma OrderHolds(signal: Signal, orders: seq<Order>, aggregation: bool, fallback: Fragment)
    requires OrderText(signal, orders, aggregation, fallback).Some?
    ensures orders == [] ==> OrderText(signal, orders, aggregation, fallback).value == fallback
    ensures orders != [] ==>
              forall k :: 0 <= k < |orders| ==>
                OrderItem(signal, orders[k], aggregation).Some?
                && Contains(OrderText(signal, orders, aggregation, fallback).value, OrderItem(signal, orders[k], aggregation).value)
  {
    hide Contains, OrderItem, Joined;
    if orders != [] {
      var items: seq<Fragment> := OrderItems(signal, orders, aggregation).value;
      ItemsAre(signal, orders, aggregation);
      forall k | 0 <= k < |orders| ensures OrderItem(signal, orders[k], aggregation).Some? && Contains(Joined(items), OrderItem(signal, orders[k], aggregation).value) {
        JoinedHolds(items, k);
      }
    }
  }

  lemma {:induction false} ItemsAre(signal: Signal, orders: seq<Order>, aggregation: bool)
    requires OrderItems(signal, orders, aggregation).Some?
    ensures |OrderItems(signal, orders, aggregation).value| == |orders|
    ensures forall k :: 0 <= k < |orders| ==> OrderItem(signal, orders[k], aggregation) == Some(OrderItems(signal, orders, aggregation).value[k])
  {
    hide OrderItem;
    if orders != [] {
      ItemsAre(signal, orders[..|orders| - 1], aggregation);
    }
  }

  /** A field in the direction asked for. */
  lemma OrderItemIs(signal: Signal, o: Order, aggregation: bool)
    requires OrderItem(signal, o, aggregation).Some?
    ensures var item := OrderItem(signal, o, aggregation).value;
            && (o.target == ByField ==>
                  |item| == 2 && item[0].Reading? && item[1] == Word(SortedBy(o.direction)) && Locate(signal, o.field).Success?
                  && item[0] == Reading(Render(Locate(signal, o.field).value).sql, Render(Locate(signal, o.field).value).args))
            && (o.target == ByAggregation ==> aggregation && item == [Word(Sorted("value", o.direction))])
            && o.target != UnknownTarget
  {
    hide Locate, Render;
  }

  // ----- columns -----

  /** The value of a field as a list item reads it. */
  function ReadingOf(signal: Signal, f: FieldRef): Piece
    requires Locate(signal, f).Success?
  {
    var field := Render(Locate(signal, f).value);
    Reading(field.sql, field.args)
  }

  lemma {:induction false} ColumnsAre(signal: Signal, fields: seq<FieldRef>, prefix: string, k: nat)
    requires ResolveAll(signal, fields).Some? && k < |fields|
    ensures Locate(signal, fields[k]).Success?
    ensures var r := ResolveAll(signal, fields).value;
            && |Columns(r, prefix)| == |Reads(r)| == |fields|
            && Columns(r, prefix)[k] == [ReadingOf(signal, fields[k]), Word(Numbered(prefix, k))]
            && Reads(r)[k] == [ReadingOf(signal, fields[k])]
    decreases |fields|
  {
    hide Locate, Render;
    var last := |fields| - 1;
    var r := ResolveAll(signal, fields).value;
    assert r[..last] == ResolveAll(signal, fields[..last]).value;
    if |fields| == 1 {
      assert r[..0] == [] && Columns(r[..0], prefix) == [] && Reads(r[..0]) == [];
    } else {
      ColumnsAre(signal, fields[..last], prefix, if k < last then k else 0);
    }
  }

  function StoredTable(signal: Signal): string { if signal == Logs then "siginsight_logs.logs" else "siginsight_traces.spans" }

  /** Raw rows come from the table of their signal, with every selected field as a column. */
  lemma RawColumns(signal: Signal, plan: Plan, common: Common)
    requires (signal == Logs || signal == Traces) && RawText(signal, plan, common).Some?
    ensures var (sql, fields) := (RawText(signal, plan, common).value, RawFields(signal, common.select));
            && Contains(sql, [Word(From(StoredTable(signal))), Word(Where)])
            && (forall k: nat :: k < |fields| ==>
                  && Locate(signal, fields[k]).Success?
                  && Contains(sql, [ReadingOf(signal, fields[k]), Word(Numbered("field_", k))]))
            && (signal == Logs && common.select == [] ==>
                  forall k: nat :: k < 9 ==> Contains(sql, [Word(Name(LogDetails()[k])), Word(Numbered("field_", |fields| + k))]))
  {
    hide Contains, CompileWhere, ResolveAll, Columns, WithDetails, OrderText, PageText, TieBreaker, RawFields, Joined, RawWhere, ReadingOf,
      Locate, DetailName;
    var fields := RawFields(signal, common.select);
    var columns := Columns(ResolveAll(signal, fields).value, "field_");
    var selects := if signal == Logs && common.select == [] then WithDetails(columns, DETAIL_COUNT) else columns;
    var from := [Word(From(Table(signal))), Word(Where)];
    var where := RawWhere(CompileWhere(signal, common.filter, plan).value.sql, common.after);
    var order := OrderText(signal, common.order, false, DefaultRawOrder(signal, common.after.Some?)).value;
    var rest := where + ([Word(OrderBy)] + (order + TieBreaker(signal, common.order)) + PageText(common));
    var sql := RawText(signal, plan, common).value;
    assert sql == [Word(Select)] + Joined(selects) + (from + rest);
    assert sql == ([Word(Select)] + Joined(selects)) + from + rest;
    Placed(sql, [Word(Select)] + Joined(selects), from, rest);
    Placed(sql, [Word(Select)], Joined(selects), from + rest);
    forall k: nat | k < |fields|
      ensures Locate(signal, fields[k]).Success? && Contains(sql, [ReadingOf(signal, fields[k]), Word(Numbered("field_", k))])
    {
      ColumnsAre(signal, fields, "field_", k);
      DetailsFollow(columns, DETAIL_COUNT);
      JoinedHolds(selects, k);
    }
    if signal == Logs && common.select == [] {
      DetailsFollow(columns, DETAIL_COUNT);
      ColumnCount(signal, fields, "field_");
      forall k: nat | k < 9 ensures Contains(sql, [Word(Name(LogDetails()[k])), Word(Numbered("field_", |fields| + k))]) {
        DetailsAre(k);
        JoinedHolds(selects, |fields| + k);
      }
    }
  }

  /** What the detail view of a log shows besides its fields. */
  function LogDetails(): (names: seq<string>)
    ensures |names| == 9
  {
    ["severity_number", "trace_flags", "attributes_string", "attributes_number", "attributes_bool", "resources_string",
     "scope_name", "scope_version", "scope_string"]
  }

  lemma DetailsAre(k: nat)
    requires k < 9
    ensures DetailName(k) == LogDetails()[k]
  {
  }

  lemma ColumnCount(signal: Signal, fields: seq<FieldRef>, prefix: string)
    requires ResolveAll(signal, fields).Some?
    ensures |Columns(ResolveAll(signal, fields).value, prefix)| == |fields|
  {
    if fields == [] {
      assert Columns([], prefix) == [];
    } else {
      ColumnsAre(signal, fields, prefix, 0);
    }
  }

  lemma {:induction false} DetailsFollow(columns: seq<Fragment>, n: nat)
    ensures |WithDetails(columns, n)| == |columns| + n && WithDetails(columns, n)[..|columns|] == columns
    ensures forall k: nat :: k < n ==>
              WithDetails(columns, n)[|columns| + k] == [Word(Name(DetailName(k))), Word(Numbered("field_", |columns| + k))]
  {
    hide DetailName;
    if n > 0 {
      DetailsFollow(columns, n - 1);
    }
  }

  function NamesOf(fields: seq<FieldRef>): seq<string> { seq(|fields|, i requires 0 <= i < |fields| => fields[i].name) }

  /** Fields with some more behind them, each with a name that was not there. */
  ghost predicate Extends(more: seq<FieldRef>, fields: seq<FieldRef>, added: seq<FieldRef>)
  {
    && fields <= more && (forall f :: f in more && f !in fields ==> f in added)
    && (forall f :: f in added ==> HasName(more, f.name))
    && ((forall f :: f in added ==> HasName(fields, f.name)) ==> more == fields)
  }

  ghost predicate HasName(fields: seq<FieldRef>, name: string) { exists k :: 0 <= k < |fields| && fields[k].name == name }

  function SpanIdentity(): seq<FieldRef>
  {
    [FieldRef("timestamp", Span, NumberType), FieldRef("trace_id", Span, StringType), FieldRef("span_id", Span, StringType)]
  }

  /** The fields of raw rows: those asked for, or a fixed list; spans always carry their time and
      identity, which are added behind the others if no field of the name is there. */
  lemma RawFieldsAre(select: seq<FieldRef>)
    ensures select != [] ==> RawFields(Logs, select) == select && Extends(RawFields(Traces, select), select, SpanIdentity())
    ensures NamesOf(RawFields(Logs, [])) == ["timestamp", "id", "severity_text", "body", "trace_id", "span_id"]
    ensures NamesOf(RawFields(Traces, [])) == ["timestamp", "trace_id", "span_id", "name", "duration_nano", "service.name"]
  {
    Identified(select);
    Identified(DefaultFields(Traces));
    hide WithTraceIdentity, Extends;
    DefaultsAreIdentified();
  }

  lemma DefaultsAreIdentified()
    ensures WithTraceIdentity(DefaultFields(Traces)) == DefaultFields(Traces)
  {
    var d := DefaultFields(Traces);
    assert d[0].name == "timestamp" && d[1].name == "trace_id" && d[2].name == "span_id";
    Identified(d);
    hide WithTraceIdentity;
  }

  lemma Identified(fields: seq<FieldRef>)
    ensures Extends(WithTraceIdentity(fields), fields, SpanIdentity())
  {
    hide WithField, HasName;
    var i := SpanIdentity();
    var b := WithField(fields, i[0]);
    var c := WithField(b, i[1]);
    var d := WithField(c, i[2]);
    WithFieldHas(fields, i[0]);
    WithFieldHas(b, i[1]);
    WithFieldHas(c, i[2]);
    assert WithTraceIdentity(fields) == d;
    HasMore(b, c, i[0].name);
    HasMore(c, d, i[0].name);
    HasMore(c, d, i[1].name);
  }

  lemma HasMore(a: seq<FieldRef>, b: seq<FieldRef>, name: string)
    requires a <= b && HasName(a, name)
    ensures HasName(b, name)
  {
    var k :| 0 <= k < |a| && a[k].name == name;
    assert b[k].name == name;
  }

  lemma WithFieldHas(fields: seq<FieldRef>, field: FieldRef)
    ensures var r := WithField(fields, field);
            && HasName(r, field.name) && fields <= r && (forall f :: f in r && f !in fields ==> f == field)
            && (HasName(fields, field.name) ==> r == fields)
  {
    if f :| f in fields && f.name == field.name {
      var k :| 0 <= k < |fields| && fields[k] == f;
      assert fields[k].name == field.name;
    } else {
      var r := fields + [field];
      assert r[|fields|].name == field.name;
    }
  }

  // ----- aggregated values -----

  /** The value aggregated over logs: their number, or a function of a field. */
  lemma LogAggregateIs(a: LogAggregation, f: FieldRef)
    ensures LogAggregate(a, f).Success? <==> a == LogCount || (a != LogOther && Locate(Logs, f).Success?)
    ensures a == LogCount ==> LogAggregate(a, f).value.sql == [Word(Function("count()"))]
    ensures a != LogCount && LogAggregate(a, f).Success? ==>
              var sql := LogAggregate(a, f).value.sql;
              && |sql| == 3 && sql[1] == ReadingOf(Logs, f) && sql[2] == Word(Close)
              && (a == LogSum ==> sql[0] == Word(Function("sum("))) && (a == LogAvg ==> sql[0] == Word(Function("avg(")))
              && (a == LogMin ==> sql[0] == Word(Function("min("))) && (a == LogMax ==> sql[0] == Word(Function("max(")))
  {
    hide Locate, Render;
  }

  /** The value aggregated over spans: their number, or the average or a quantile of their durations. */
  lemma TraceAggregateIs(a: TraceAggregation)
    ensures TraceAggregate(a).Success? <==> a != TraceOther
    ensures a == TraceCount ==> TraceAggregate(a).value.sql == [Word(Function("count()"))]
    ensures a == DurationAvg ==> TraceAggregate(a).value.sql == [Word(Function("avg(duration_nano)"))]
    ensures a == DurationP50 ==> TraceAggregate(a).value.sql == [Word(Function("quantile(0.5)(duration_nano)"))]
    ensures a == DurationP90 ==> TraceAggregate(a).value.sql == [Word(Function("quantile(0.9)(duration_nano)"))]
    ensures a == DurationP95 ==> TraceAggregate(a).value.sql == [Word(Function("quantile(0.95)(duration_nano)"))]
    ensures a == DurationP99 ==> TraceAggregate(a).value.sql == [Word(Function("quantile(0.99)(duration_nano)"))]
  {
  }

  /** An aggregate reads the table of its signal, groups by the fields asked for and names its
      columns; it is ordered as asked, else in time or by value. */
  lemma AggregateColumns(signal: Signal, plan: Plan, common: Common, aggregation: Fragment)
    requires (signal == Logs || signal == Traces) && AggregateText(signal, plan, common, aggregation).Some?
    ensures var sql := AggregateText(signal, plan, common, aggregation).value;
            && Contains(sql, [Word(From(StoredTable(signal))), Word(Where)])
            && Contains(sql, aggregation + [Word(Aliased("value"))])
            && (forall k: nat :: k < |common.groupBy| ==>
                  && Locate(signal, common.groupBy[k]).Success?
                  && Contains(sql, [ReadingOf(signal, common.groupBy[k]), Word(Numbered("group_", k))]))
            && (common.order == [] ==>
                  Contains(sql, [Word(OrderBy), Word(Fixed(if plan.resultType == TimeSeries then "timestamp ASC" else "value DESC"))]))
            && forall k: nat :: k < |common.order| ==>
                 && OrderItem(signal, common.order[k], true).Some?
                 && Contains(sql, OrderItem(signal, common.order[k], true).value)
  {
    hide Contains, CompileWhere, ResolveAll, AggregateSelects, AggregateGroups, GroupText, LimitText, HavingText, Joined, BucketText,
      ReadingOf, Locate, OrderText, OrderItem;
    var bucket := BucketText(signal, plan).value;
    var fields := ResolveAll(signal, common.groupBy).value;
    var where := CompileWhere(signal, common.filter, plan).value.sql;
    var order := OrderText(signal, common.order, true, DefaultAggregateOrder(plan)).value;
    var list, from := Joined(AggregateSelects(bucket, fields, aggregation)), [Word(From(Table(signal))), Word(Where)];
    var rest := where + GroupText(AggregateGroups(bucket, fields)) + HavingText(common.having, aggregation);
    var sql := AggregateText(signal, plan, common, aggregation).value;
    AggregateParts([Word(Select)], list, from, where, GroupText(AggregateGroups(bucket, fields)),
                   HavingText(common.having, aggregation), [Word(OrderBy)], order, LimitText(common.limit));
    assert sql == [Word(Select)] + list + (from + rest + ([Word(OrderBy)] + order) + LimitText(common.limit));
    Placed(sql, [Word(Select)] + list, from, rest + ([Word(OrderBy)] + order) + LimitText(common.limit));
    Placed(sql, [Word(Select)], list, from + rest + ([Word(OrderBy)] + order) + LimitText(common.limit));
    Placed(sql, [Word(Select)] + list + from + rest, [Word(OrderBy)] + order, LimitText(common.limit));
    ListHolds(signal, bucket, common.groupBy, aggregation);
    if common.order == [] {
      DefaultOrderIs(signal, plan);
    } else {
      OrderHolds(signal, common.order, true, DefaultAggregateOrder(plan));
      assert [Word(OrderBy)] + order == [Word(OrderBy)] + order + [];
      Placed([Word(OrderBy)] + order, [Word(OrderBy)], order, []);
    }
  }

  lemma DefaultOrderIs(signal: Signal, plan: Plan)
    ensures var order := OrderText(signal, [], true, DefaultAggregateOrder(plan));
            && order.Some?
            && [Word(OrderBy)] + order.value
               == [Word(OrderBy), Word(Fixed(if plan.resultType == TimeSeries then "timestamp ASC" else "value DESC"))]
    ensures var sql := [Word(OrderBy)] + OrderText(signal, [], true, DefaultAggregateOrder(plan)).value; Contains(sql, sql)
  {
    ContainsItself([Word(OrderBy)] + OrderText(signal, [], true, DefaultAggregateOrder(plan)).value);
  }

  lemma AggregateParts(a: Fragment, b: Fragment, c: Fragment, d: Fragment, e: Fragment, f: Fragment, g: Fragment, h: Fragment, i: Fragment)
    ensures var sql := a + b + c + d + e + f + g + h + i;
            && sql == a + b + (c + (d + e + f) + (g + h) + i)
            && sql == (a + b) + c + ((d + e + f) + (g + h) + i)
            && sql == (a + b + c + (d + e + f)) + (g + h) + i
  {
  }

  lemma ListHolds(signal: Signal, bucket: Option<Fragment>, groupBy: seq<FieldRef>, aggregation: Fragment)
    requires ResolveAll(signal, groupBy).Some?
    ensures var list := Joined(AggregateSelects(bucket, ResolveAll(signal, groupBy).value, aggregation));
            && Contains(list, aggregation + [Word(Aliased("value"))])
            && forall k: nat :: k < |groupBy| ==>
                 && Locate(signal, groupBy[k]).Success?
                 && Contains(list, [ReadingOf(signal, groupBy[k]), Word(Numbered("group_", k))])
  {
    hide Contains, ResolveAll, ReadingOf, Locate, Joined, Columns;
    var fields := ResolveAll(signal, groupBy).value;
    var selects, before := AggregateSelects(bucket, fields, aggregation), if bucket.Some? then 1 else 0;
    var columns := Columns(fields, "group_");
    assert selects[|selects| - 1] == aggregation + [Word(Aliased("value"))];
    JoinedHolds(selects, |selects| - 1);
    forall k: nat | k < |groupBy|
      ensures Locate(signal, groupBy[k]).Success?
              && Contains(Joined(selects), [ReadingOf(signal, groupBy[k]), Word(Numbered("group_", k))])
    {
      ColumnsAre(signal, groupBy, "group_", k);
      assert selects[before + k] == columns[k];
      JoinedHolds(selects, before + k);
    }
  }
}
