/** Statements over metric and meter points: series selection, numeric aggregation in two
    phases, and histogram quantiles. */
module MetricStatements {
  import opened Fields
  import opened Filters
  import opened FilterSql
  import opened FieldCatalog
  import opened FilterCompiler
  import opened SqlText
  import opened StatementClauses
  import opened Statements
  import opened Results

  datatype MetricType = Gauge | Sum | Histogram | OtherType

  datatype Temporality = Unspecified | Delta | Cumulative | OtherTemporality

  datatype TimeAggregation = Latest | SumOver | AvgOver | MinOver | MaxOver | CountOver | Rate | Increase | OtherTime

  datatype SpaceAggregation = SumAcross | AvgAcross | MinAcross | MaxAcross | CountAcross | P50 | P90 | P95 | P99 | OtherSpace

  datatype Aggregation = Aggregation(metric: string, typ: MetricType, temporality: Temporality, time: TimeAggregation, space: SpaceAggregation)

  function TypeName(t: MetricType): Scalar
  {
    match t case Gauge => Str("Gauge") case Sum => Str("Sum") case Histogram => Str("Histogram") case OtherType => Str("")
  }

  function PhysicalTemporality(a: Aggregation): Scalar
  {
    match a.temporality case Delta => Str("Delta") case Cumulative => Str("Cumulative") case _ => Str("Unspecified")
  }

  /** A placeholder behind fixed text, as a clause. */
  function Bound(phrase: Phrase, v: Scalar): Clause { Clause(Bind(phrase, v), [v]) }

  lemma LinedBound(phrase: Phrase, v: Scalar)
    ensures Lined(Bound(phrase, v))
  {
    WantsBind(phrase, v);
  }

  // ----- series -----

  const LE := FieldRef("le", Label, StringType)

  /** The condition on series of one metric. */
  function SeriesCondition(a: Aggregation): Fragment
  {
    if a.typ == Gauge then
      Bind(Fixed("metric_name ="), Str(a.metric)) + Bind(Fixed("AND (type ="), TypeName(Gauge)) + Bind(Fixed("OR (type ="), TypeName(Sum))
      + Bind(Fixed("AND is_monotonic ="), Boolean(false)) + Bind(Fixed(")) AND __normalized ="), Boolean(false))
    else
      Bind(Fixed("metric_name ="), Str(a.metric)) + Bind(Fixed("AND type ="), TypeName(a.typ))
      + Bind(Fixed("AND lower(temporality) = lower"), PhysicalTemporality(a)) + Bind(Fixed("AND __normalized ="), Boolean(false))
  }

  function SeriesConditionArgs(a: Aggregation): Args
  {
    if a.typ == Gauge then [Str(a.metric), TypeName(Gauge), TypeName(Sum), Boolean(false), Boolean(false)]
    else [Str(a.metric), TypeName(a.typ), PhysicalTemporality(a), Boolean(false)]
  }

  function MeterCondition(a: Aggregation, plan: Plan): Fragment
  {
    Bind(Fixed("metric_name ="), Str(a.metric)) + Bind(Fixed("AND lower(temporality) = lower"), PhysicalTemporality(a))
    + Bind(Fixed("AND unix_milli >="), IntArg(plan.startMS)) + Bind(Fixed("AND unix_milli <"), IntArg(plan.endMS))
  }

  function MeterConditionArgs(a: Aggregation, plan: Plan): Args
  {
    [Str(a.metric), PhysicalTemporality(a), IntArg(plan.startMS), IntArg(plan.endMS)]
  }

  lemma LinedThree(a: Clause, b: Clause, c: Clause)
    requires Lined(a) && Lined(b) && Lined(c)
    ensures Lined(Clause(a.sql + b.sql + c.sql, a.args + b.args + c.args))
  {
    hide Lined;
    LinedAppend(a, b);
    LinedAppend(Clause(a.sql + b.sql, a.args + b.args), c);
  }

  lemma LinedSeriesCondition(a: Aggregation)
    ensures Lined(Clause(SeriesCondition(a), SeriesConditionArgs(a)))
  {
    hide Lined, Bind, TypeName;
    var name := Bound(Fixed("metric_name ="), Str(a.metric));
    LinedBound(Fixed("metric_name ="), Str(a.metric));
    if a.typ == Gauge {
      var f := Boolean(false);
      LinedBound(Fixed("AND (type ="), TypeName(Gauge));
      LinedBound(Fixed("OR (type ="), TypeName(Sum));
      LinedBound(Fixed("AND is_monotonic ="), f);
      LinedBound(Fixed(")) AND __normalized ="), f);
      var first := Clause(name.sql + Bind(Fixed("AND (type ="), TypeName(Gauge)) + Bind(Fixed("OR (type ="), TypeName(Sum)),
                          name.args + [TypeName(Gauge)] + [TypeName(Sum)]);
      LinedThree(name, Bound(Fixed("AND (type ="), TypeName(Gauge)), Bound(Fixed("OR (type ="), TypeName(Sum)));
      LinedThree(first, Bound(Fixed("AND is_monotonic ="), f), Bound(Fixed(")) AND __normalized ="), f));
      assert first.args + [f] + [f] == SeriesConditionArgs(a);
    } else {
      LinedBound(Fixed("AND type ="), TypeName(a.typ));
      LinedBound(Fixed("AND lower(temporality) = lower"), PhysicalTemporality(a));
      LinedBound(Fixed("AND __normalized ="), Boolean(false));
      var first := Clause(name.sql + Bind(Fixed("AND type ="), TypeName(a.typ)) + Bind(Fixed("AND lower(temporality) = lower"), PhysicalTemporality(a)),
                          name.args + [TypeName(a.typ)] + [PhysicalTemporality(a)]);
      LinedThree(name, Bound(Fixed("AND type ="), TypeName(a.typ)),
                 Bound(Fixed("AND lower(temporality) = lower"), PhysicalTemporality(a)));
      LinedAppend(first, Bound(Fixed("AND __normalized ="), Boolean(false)));
      assert first.args + [Boolean(false)] == SeriesConditionArgs(a);
    }
  }

  lemma LinedMeterCondition(a: Aggregation, plan: Plan)
    ensures Lined(Clause(MeterCondition(a, plan), MeterConditionArgs(a, plan)))
  {
    var name, temporality := Str(a.metric), PhysicalTemporality(a);
    LinedPair(Fixed("metric_name ="), name, Fixed("AND lower(temporality) = lower"), temporality);
    LinedBound(Fixed("AND unix_milli >="), IntArg(plan.startMS));
    LinedBound(Fixed("AND unix_milli <"), IntArg(plan.endMS));
    hide Lined, Bind;
    LinedThree(Clause(Bind(Fixed("metric_name ="), name) + Bind(Fixed("AND lower(temporality) = lower"), temporality), [name, temporality]),
               Bound(Fixed("AND unix_milli >="), IntArg(plan.startMS)), Bound(Fixed("AND unix_milli <"), IntArg(plan.endMS)));
    assert [name, temporality] + [IntArg(plan.startMS)] + [IntArg(plan.endMS)] == MeterConditionArgs(a, plan);
  }

  /** An optional metric filter; an empty condition leaves no text. */
  function FilterText(c: Compiled): Fragment
  {
    if c.sql == Blank then [] else [Word(AndOpen), Testing(c.sql, c.args), Word(Close)]
  }

  lemma LinedFilter(signal: Signal, node: FilterNode)
    requires Compile(signal, node).Success?
    ensures var c := Compile(signal, node).value; Lined(Clause(FilterText(c), c.args))
  {
    hide Compile;
    var c := Compile(signal, node).value;
    FilterSlots(signal, node);
    LinedTesting(signal, node);
    if c.sql == Blank {
      assert c.args == [];
      WantsOne(Word(Comma));
    } else {
      LinedWords(AndOpen, Close);
      LinedWords(Close, Close);
      hide Lined;
      LinedThree(Clause([Word(AndOpen)], []), Clause([Testing(c.sql, c.args)], c.args), Clause([Word(Close)], []));
      assert [] + c.args + [] == c.args;
      assert [Word(AndOpen)] + [Testing(c.sql, c.args)] + [Word(Close)] == FilterText(c);
    }
  }

  /** Fields a series query reads: the groups, and the bucket bound for quantiles. */
  function SeriesFields(groupBy: seq<FieldRef>, histogram: bool): seq<FieldRef>
  {
    if histogram then groupBy + [LE] else groupBy
  }

  function Condition(a: Aggregation, plan: Plan, signal: Signal): Clause
  {
    if signal == Metrics then Clause(SeriesCondition(a), SeriesConditionArgs(a))
    else Clause(MeterCondition(a, plan), MeterConditionArgs(a, plan))
  }

  /** Series with their group values: metrics select from the series table, meter from the
      points themselves. */
  function SeriesText(a: Aggregation, common: Common, signal: Signal, plan: Plan, histogram: bool): Option<Fragment>
  {
    var fields := ResolveAll(signal, SeriesFields(common.groupBy, histogram));
    var filter := Compile(signal, common.filter);
    if fields.None? || filter.Failure? then None
    else
      Some([Word(Fixed("SELECT fingerprint"))] + Leading(Columns(fields.value, "group_")) + [Word(Where)] + Condition(a, plan, signal).sql
           + FilterText(filter.value) + [Word(Fixed(" GROUP BY fingerprint"))] + Leading(Reads(fields.value)))
  }

  /** A list that follows a first, fixed item. */
  function Leading(parts: seq<Fragment>): Fragment
  {
    if parts == [] then [] else Leading(parts[..|parts| - 1]) + [Word(Comma)] + parts[|parts| - 1]
  }

  lemma {:induction false} LinedLeading(parts: seq<Fragment>)
    requires AllAligned(parts)
    ensures Lined(Clause(Leading(parts), WantsOfAll(parts)))
  {
    if parts == [] {
      WantsOne(Word(Comma));
    } else {
      hide Wants, Aligned;
      var before, last := parts[..|parts| - 1], parts[|parts| - 1];
      assert parts == before + [last];
      AlignedParts(before, last);
      LinedLeading(before);
      WantsCommaAppend(Leading(before), last);
    }
  }

  method CompileSeries(a: Aggregation, common: Common, signal: Signal, plan: Plan, histogram: bool)
    returns (r: Result<Clause, StatementError>)
    requires IsMetric(signal)
    ensures r.Success? <==> SeriesText(a, common, signal, plan, histogram).Some?
    ensures r.Success? ==> r.value.sql == SeriesText(a, common, signal, plan, histogram).value && Lined(r.value)
  {
    hide Wants, Aligned, Compile, ResolveAll, Columns, Reads, FilterText, SeriesCondition, MeterCondition, SeriesConditionArgs,
      MeterConditionArgs, Leading;
    var keys: Result<FieldLists, StatementError> := CompileColumns(signal, SeriesFields(common.groupBy, histogram), "group_");
    if keys.Failure? {
      return Failure(keys.error);
    }
    var where: Result<Compiled, CompileError> := CompileFilter(signal, common.filter);
    if where.Failure? {
      return Failure(UnsupportedFilter);
    }
    var args := keys.value.selectArgs;
    args := args + Condition(a, plan, signal).args;
    args := args + where.value.args;
    args := args + keys.value.groupArgs;
    var query := [Word(Fixed("SELECT fingerprint"))] + Leading(keys.value.selects) + [Word(Where)] + Condition(a, plan, signal).sql;
    query := query + FilterText(where.value);
    query := query + [Word(Fixed(" GROUP BY fingerprint"))] + Leading(keys.value.groups);
    SeriesLines(keys.value, Condition(a, plan, signal), Clause(FilterText(where.value), where.value.args)) by {
      LinedSeriesCondition(a);
      LinedMeterCondition(a, plan);
      LinedFilter(signal, common.filter);
    }
    r := Success(Clause(query, args));
  }

  lemma SeriesLines(keys: FieldLists, condition: Clause, filter: Clause)
    requires AllAligned(keys.selects) && AllAligned(keys.groups) && Lined(condition) && Lined(filter)
    requires keys.selectArgs == WantsOfAll(keys.selects) && keys.groupArgs == WantsOfAll(keys.groups)
    ensures Lined(Clause([Word(Fixed("SELECT fingerprint"))] + Leading(keys.selects) + [Word(Where)] + condition.sql + filter.sql
                         + [Word(Fixed(" GROUP BY fingerprint"))] + Leading(keys.groups),
                         keys.selectArgs + condition.args + filter.args + keys.groupArgs))
  {
    hide Wants, Aligned, Lined, Leading;
    LinedLeading(keys.selects);
    LinedLeading(keys.groups);
    LinedWords(Fixed("SELECT fingerprint"), Comma);
    LinedWords(Where, Comma);
    LinedWords(Fixed(" GROUP BY fingerprint"), Comma);
    LinedAppend(Clause([Word(Fixed("SELECT fingerprint"))], []), Clause(Leading(keys.selects), keys.selectArgs));
    assert [] + keys.selectArgs == keys.selectArgs;
    var list := Clause([Word(Fixed("SELECT fingerprint"))] + Leading(keys.selects), keys.selectArgs);
    LinedAfterWords(list, [Word(Where)], condition);
    var c := Clause(list.sql + [Word(Where)] + condition.sql, list.args + condition.args);
    LinedAppend(c, filter);
    LinedAfterWords(Clause(c.sql + filter.sql, c.args + filter.args), [Word(Fixed(" GROUP BY fingerprint"))],
                    Clause(Leading(keys.groups), keys.groupArgs));
  }

  // ----- points -----

  function MetricBucket(plan: Plan): (r: Result<Clause, StatementError>)
    ensures r.Success? ==> Lined(r.value)
  {
    if plan.resultType == SingleValue then
      WantsOne(Word(Comma));
      Success(Clause([], []))
    else if plan.stepMS <= 0 then Failure(StepNotPositive)
    else
      LinedPair(BucketOf(Millis), IntArg(plan.stepMS), Times, IntArg(plan.stepMS));
      Success(Clause(Bind(BucketOf(Millis), IntArg(plan.stepMS)) + Bind(Times, IntArg(plan.stepMS)), [IntArg(plan.stepMS), IntArg(plan.stepMS)]))
  }

  /** Only sums and histograms tell their points apart by temporality. */
  function PointCondition(a: Aggregation, plan: Plan): Fragment
  {
    Bind(Fixed("points.metric_name ="), Str(a.metric))
    + (if a.typ == Gauge then [] else Bind(Fixed("AND lower(points.temporality) = lower"), PhysicalTemporality(a)))
    + Bind(Fixed("AND points.unix_milli >="), IntArg(plan.startMS)) + Bind(Fixed("AND points.unix_milli <"), IntArg(plan.endMS))
  }

  function PointArgs(a: Aggregation, plan: Plan): Args
  {
    [Str(a.metric)] + (if a.typ == Gauge then [] else [PhysicalTemporality(a)]) + [IntArg(plan.startMS), IntArg(plan.endMS)]
  }

  lemma LinedPoints(a: Aggregation, plan: Plan)
    ensures Lined(Clause(PointCondition(a, plan), PointArgs(a, plan)))
  {
    var temporality := if a.typ == Gauge then Clause([], []) else Bound(Fixed("AND lower(points.temporality) = lower"), PhysicalTemporality(a));
    WantsOne(Word(Comma));
    LinedBound(Fixed("AND lower(points.temporality) = lower"), PhysicalTemporality(a));
    LinedBound(Fixed("points.metric_name ="), Str(a.metric));
    LinedBound(Fixed("AND points.unix_milli >="), IntArg(plan.startMS));
    LinedBound(Fixed("AND points.unix_milli <"), IntArg(plan.endMS));
    assert Lined(temporality);
    hide Lined, Bind, PhysicalTemporality;
    var name := Bound(Fixed("points.metric_name ="), Str(a.metric));
    LinedAppend(name, temporality);
    LinedThree(Clause(name.sql + temporality.sql, name.args + temporality.args),
               Bound(Fixed("AND points.unix_milli >="), IntArg(plan.startMS)), Bound(Fixed("AND points.unix_milli <"), IntArg(plan.endMS)));
    assert name.args + temporality.args + [IntArg(plan.startMS)] + [IntArg(plan.endMS)] == PointArgs(a, plan);
  }

  predicate RequiresWindow(a: Aggregation) { a.time == Rate || a.time == Increase }

  function PointValue(a: Aggregation): string
  {
    match a.time
    case Latest => "argMax(points.value, points.unix_milli)"
    case SumOver => "sum(points.value)"
    case AvgOver => "avg(points.value)"
    case MinOver => "min(points.value)"
    case MaxOver => "max(points.value)"
    case CountOver => "count(points.value)"
    case _ => if a.temporality == Cumulative then "argMax(points.value, points.unix_milli)" else "sum(points.value)"
  }

  /** The bucket of a point for a time series, and for counters its own time. */
  function PointTime(sampled: bool, plan: Plan, bucket: Fragment): Fragment
  {
    if plan.resultType == TimeSeries then bucket else if sampled then [Word(Name("points.unix_milli"))] else []
  }

  /** The first phase: points aggregated by series and bucket. */
  function BaseText(value: string, sampled: bool, points: Fragment, plan: Plan, bucket: Fragment, n: nat): Fragment
  {
    [Word(Fixed("SELECT points.fingerprint, "))]
    + (PointTime(sampled, plan, bucket) + (if plan.resultType == TimeSeries || sampled then [Word(Aliased("timestamp"))] else []))
    + [Word(Numbered("series.group_", n)), Word(Function(value)), Word(Fixed("FROM points INNER JOIN __lite_series")), Word(Where)]
    + points + [Word(Numbered(" GROUP BY points.fingerprint, group_", n))] + PointTime(sampled, plan, bucket)
  }

  function BaseArgs(points: Args, plan: Plan, bucket: Args): Args
  {
    (if plan.resultType == TimeSeries then bucket else []) + points + (if plan.resultType == TimeSeries then bucket else [])
  }

  lemma LinedBase(value: string, sampled: bool, points: Clause, plan: Plan, bucket: Clause, n: nat)
    requires Lined(points) && Lined(bucket)
    ensures Lined(Clause(BaseText(value, sampled, points.sql, plan, bucket.sql, n), BaseArgs(points.args, plan, bucket.args)))
  {
    var time := Clause(PointTime(sampled, plan, bucket.sql), if plan.resultType == TimeSeries then bucket.args else []);
    var alias := if plan.resultType == TimeSeries || sampled then [Word(Aliased("timestamp"))] else [];
    var words := [Word(Numbered("series.group_", n)), Word(Function(value)), Word(Fixed("FROM points INNER JOIN __lite_series")), Word(Where)];
    var first, groups := [Word(Fixed("SELECT points.fingerprint, "))], [Word(Numbered(" GROUP BY points.fingerprint, group_", n))];
    LinedAllWords(PointTime(sampled, plan, []));
    assert Lined(time);
    LinedAllWords(alias);
    LinedAllWords(words);
    LinedAllWords(first);
    LinedAllWords(groups);
    hide Lined, PointTime;
    LinedAppend(time, Clause(alias, []));
    assert time.args + [] == time.args && [] + time.args == time.args;
    LinedAppend(Clause(first, []), Clause(time.sql + alias, time.args));
    LinedAfterWords(Clause(first + (time.sql + alias), time.args), words, points);
    LinedAfterWords(Clause(first + (time.sql + alias) + words + points.sql, time.args + points.args), groups, time);
  }

  lemma {:induction false} LinedAllWords(words: Fragment)
    requires forall p :: p in words ==> p.Word?
    ensures Lined(Clause(words, []))
  {
    if words != [] {
      LinedAllWords(words[..|words| - 1]);
    }
  }

  /** What becomes of the buckets of one series: differences for cumulative counters, the
      bucket itself for deltas, divided by its length for a rate. */
  function PerSeries(a: Aggregation, plan: Plan): Fragment
  {
    if a.temporality == Cumulative then
      [Word(Fixed(if a.time == Rate then "increase per second since the previous bucket" else "increase since the previous bucket"))]
    else if a.time == Rate then
      if plan.resultType == TimeSeries then Bind(Fixed("bucket_value / ("), IntArg(plan.stepMS))
      else Bind(Fixed("bucket_value / (("), IntArg(plan.endMS)) + Bind(Fixed("-"), IntArg(plan.startMS))
    else [Word(Name("bucket_value"))]
  }

  function PerSeriesArgs(a: Aggregation, plan: Plan): Args
  {
    if a.temporality == Cumulative || a.time != Rate then []
    else if plan.resultType == TimeSeries then [IntArg(plan.stepMS)]
    else [IntArg(plan.endMS), IntArg(plan.startMS)]
  }

  lemma LinedPerSeries(a: Aggregation, plan: Plan)
    ensures Lined(Clause(PerSeries(a, plan), PerSeriesArgs(a, plan)))
  {
    if a.temporality == Cumulative || a.time != Rate {
      LinedWords(PerSeries(a, plan)[0].phrase, Comma);
    } else {
      LinedBound(Fixed("bucket_value / ("), IntArg(plan.stepMS));
      LinedPair(Fixed("bucket_value / (("), IntArg(plan.endMS), Fixed("-"), IntArg(plan.startMS));
    }
  }

  function TemporalText(a: Aggregation, plan: Plan, base: Fragment): Fragment
  {
    if RequiresWindow(a) then
      [Word(Cte("__lite_bucketed"))] + base + [Word(EndCte), Word(Cte("__lite_temporal"))] + PerSeries(a, plan)
    else [Word(Cte("__lite_temporal"))] + base
  }

  lemma LinedTemporal(a: Aggregation, plan: Plan, base: Clause)
    requires Lined(base)
    ensures Lined(Clause(TemporalText(a, plan, base.sql), base.args + (if RequiresWindow(a) then PerSeriesArgs(a, plan) else [])))
  {
    hide Lined, PerSeries, PerSeriesArgs;
    LinedPerSeries(a, plan);
    LinedWords(Cte("__lite_bucketed"), Comma);
    LinedWords(Cte("__lite_temporal"), Comma);
    LinedWords(EndCte, Cte("__lite_temporal"));
    LinedAppend(Clause([Word(Cte("__lite_bucketed"))], []), base);
    LinedAppend(Clause([Word(Cte("__lite_temporal"))], []), base);
    assert [] + base.args == base.args && base.args + [] == base.args;
    LinedAfterWords(Clause([Word(Cte("__lite_bucketed"))] + base.sql, base.args), [Word(EndCte), Word(Cte("__lite_temporal"))],
                    Clause(PerSeries(a, plan), PerSeriesArgs(a, plan)));
  }

  // ----- the final selection -----

  function SpaceName(s: SpaceAggregation): Option<string>
  {
    match s
    case SumAcross => Some("sum(per_series_value)")
    case AvgAcross => Some("avg(per_series_value)")
    case MinAcross => Some("min(per_series_value)")
    case MaxAcross => Some("max(per_series_value)")
    case CountAcross => Some("count(per_series_value)")
    case _ => None
  }

  function IndexOf(fields: seq<FieldRef>, field: FieldRef): (k: Option<nat>)
    ensures k.Some? ==> k.value < |fields| && fields[k.value] == field && field !in fields[..k.value]
    ensures k.None? ==> field !in fields
  {
    if fields == [] then None
    else
      var last := |fields| - 1;
      var before := IndexOf(fields[..last], field);
      if before.Some? then before else if fields[last] == field then Some(last) else None
  }

  function MetricOrderItem(o: Order, groupBy: seq<FieldRef>): Option<Fragment>
  {
    match o.target
    case ByAggregation => Some([Word(Sorted("value", o.direction))])
    case ByField =>
      var k := IndexOf(groupBy, o.field);
      if k.None? then None else Some([Word(SortedNumbered("group_", k.value, o.direction))])
    case UnknownTarget => None
  }

  function MetricOrderItems(orders: seq<Order>, groupBy: seq<FieldRef>): Option<seq<Fragment>>
  {
    if orders == [] then Some([])
    else
      var before := MetricOrderItems(orders[..|orders| - 1], groupBy);
      var item := MetricOrderItem(orders[|orders| - 1], groupBy);
      if before.None? || item.None? then None else Some(before.value + [item.value])
  }

  function MetricOrder(common: Common, plan: Plan): Option<Fragment>
  {
    if common.order == [] then Some(DefaultAggregateOrder(plan))
    else
      var items := MetricOrderItems(common.order, common.groupBy);
      if items.None? then None else Some(Joined(items.value))
  }

  lemma {:induction false} WantsMetricOrder(orders: seq<Order>, groupBy: seq<FieldRef>)
    requires MetricOrderItems(orders, groupBy).Some?
    ensures var items := MetricOrderItems(orders, groupBy).value; WantsOfAll(items) == [] && AllAligned(items)
  {
    hide Wants, Aligned, IndexOf;
    if orders != [] {
      var before := MetricOrderItems(orders[..|orders| - 1], groupBy).value;
      var item := MetricOrderItem(orders[|orders| - 1], groupBy).value;
      WantsMetricOrder(orders[..|orders| - 1], groupBy);
      LinedWords(item[0].phrase, Comma);
      AlignedParts(before, item);
    }
  }

  lemma LinedMetricOrder(common: Common, plan: Plan)
    requires MetricOrder(common, plan).Some?
    ensures Lined(Clause(MetricOrder(common, plan).value, []))
  {
    if common.order == [] {
      LinedDefaultAggregateOrder(plan);
    } else {
      WantsMetricOrder(common.order, common.groupBy);
      WantsJoined(MetricOrderItems(common.order, common.groupBy).value);
    }
  }

  function FinalText(text: string, n: nat, having: Fragment, order: Fragment, limit: nat): Fragment
  {
    [Word(EndCte), Word(Numbered(text, n))] + having + [Word(OrderBy)] + order + LimitText(limit)
  }

  lemma FinalTextEnds(before: Fragment, text: string, n: nat, having: Fragment, order: Fragment, limit: nat)
    ensures limit != 0 ==>
              EndsWith(before + FinalText(text, n, having, order, limit), [Word(Limit), Placeholder(IntArg(limit + 1))])
  {
    var words := [Word(EndCte), Word(Numbered(text, n))] + having + [Word(OrderBy)] + order;
    LimitTextIs(limit);
    EndsWithLast(before + words, LimitText(limit));
    assert before + (words + LimitText(limit)) == before + words + LimitText(limit);
  }

  lemma LinedFinal(before: Clause, text: string, n: nat, having: Clause, order: Fragment, limit: nat)
    requires Lined(before) && Lined(having) && Lined(Clause(order, []))
    ensures Lined(Clause(before.sql + FinalText(text, n, having.sql, order, limit), before.args + having.args + LimitArgs(limit)))
  {
    hide Lined, LimitText, LimitArgs;
    LinedWords(EndCte, Numbered(text, n));
    LinedWords(OrderBy, Comma);
    LinedLimit(limit);
    var words := [Word(EndCte), Word(Numbered(text, n))];
    LinedAppend(Clause(words, []), having);
    assert [] + having.args == having.args && having.args + [] == having.args;
    LinedAfterWords(Clause(words + having.sql, having.args), [Word(OrderBy)], Clause(order, []));
    var a := Clause(words + having.sql + [Word(OrderBy)] + order, having.args);
    LinedAppend(a, Clause(LimitText(limit), LimitArgs(limit)));
    LinedAppend(before, Clause(a.sql + LimitText(limit), a.args + LimitArgs(limit)));
    assert before.args + (having.args + LimitArgs(limit)) == before.args + having.args + LimitArgs(limit);
  }

  // ----- numeric metrics -----

  function NumericText(a: Aggregation, common: Common, signal: Signal, plan: Plan): Option<Fragment>
  {
    var series := SeriesText(a, common, signal, plan, false);
    var bucket := MetricBucket(plan);
    var space := SpaceName(a.space);
    var order := MetricOrder(common, plan);
    if series.None? || bucket.Failure? || a.time == OtherTime || space.None? || order.None? then None
    else
      var n := |common.groupBy|;
      var base := BaseText(PointValue(a), RequiresWindow(a), PointCondition(a, plan), plan, bucket.value.sql, n);
      Some([Word(Cte("__lite_series"))] + series.value + [Word(EndCte)] + TemporalText(a, plan, base)
           + FinalText(space.value, n, HavingText(common.having, [Word(Function(space.value))]), order.value, common.limit))
  }

  method CompileNumericMetric(a: Aggregation, common: Common, signal: Signal, plan: Plan) returns (r: Result<Statement, StatementError>)
    requires IsMetric(signal)
    ensures r.Success? <==> NumericText(a, common, signal, plan).Some?
    ensures r.Success? ==> Delivers(r.value, NumericText(a, common, signal, plan).value)
    ensures r.Success? ==> r.value.pagination.None? && r.value.resultLimit == common.limit
    ensures r.Success? && common.limit != 0 ==> EndsWith(r.value.sql, [Word(Limit), Placeholder(IntArg(common.limit + 1))])
  {
    hide Lined, SeriesText, MetricBucket, SpaceName, MetricOrder, BaseText, BaseArgs, PointCondition, PointArgs, TemporalText,
      PerSeriesArgs, FinalText, HavingText, HavingArgs, LimitArgs, PointValue;
    var series: Result<Clause, StatementError> := CompileSeries(a, common, signal, plan, false);
    if series.Failure? {
      return Failure(series.error);
    }
    var bucket: Result<Clause, StatementError> := MetricBucket(plan);
    if bucket.Failure? {
      return Failure(bucket.error);
    }
    if a.time == OtherTime {
      return Failure(UnsupportedAggregation);
    }
    var n := |common.groupBy|;
    var points := PointCondition(a, plan);
    var base := BaseText(PointValue(a), RequiresWindow(a), points, plan, bucket.value.sql, n);
    var args := series.value.args;
    args := args + BaseArgs(PointArgs(a, plan), plan, bucket.value.args);
    assert args + [] == args;
    if RequiresWindow(a) {
      args := args + PerSeriesArgs(a, plan);
    }
    var space: Option<string> := SpaceName(a.space);
    if space.None? {
      return Failure(UnsupportedAggregation);
    }
    var query := [Word(Cte("__lite_series"))] + series.value.sql + [Word(EndCte)] + TemporalText(a, plan, base);
    args := args + HavingArgs(common.having, []);
    var order: Option<Fragment> := MetricOrder(common, plan);
    if order.None? {
      return Failure(UnsupportedOrder);
    }
    query := query + FinalText(space.value, n, HavingText(common.having, [Word(Function(space.value))]), order.value, common.limit);
    args := args + LimitArgs(common.limit);
    NumericLines(a, common, plan, series.value, bucket.value, space.value, order.value);
    FinalTextEnds([Word(Cte("__lite_series"))] + series.value.sql + [Word(EndCte)] + TemporalText(a, plan, base), space.value, n,
                  HavingText(common.having, [Word(Function(space.value))]), order.value, common.limit);
    r := Success(Statement(query, args, None, common.limit));
  }

  lemma NumericLines(a: Aggregation, common: Common, plan: Plan, series: Clause, bucket: Clause, space: string, order: Fragment)
    requires Lined(series) && Lined(bucket) && MetricOrder(common, plan) == Some(order)
    ensures var n := |common.groupBy|;
            var base := BaseText(PointValue(a), RequiresWindow(a), PointCondition(a, plan), plan, bucket.sql, n);
            var own := BaseArgs(PointArgs(a, plan), plan, bucket.args);
            var all := series.args + own + (if RequiresWindow(a) then PerSeriesArgs(a, plan) else []);
            Lined(Clause([Word(Cte("__lite_series"))] + series.sql + [Word(EndCte)] + TemporalText(a, plan, base)
                         + FinalText(space, n, HavingText(common.having, [Word(Function(space))]), order, common.limit),
                         all + HavingArgs(common.having, []) + LimitArgs(common.limit)))
  {
    hide Lined, MetricOrder, BaseText, BaseArgs, PointCondition, PointArgs, TemporalText, PerSeriesArgs, FinalText, HavingText,
      HavingArgs, LimitArgs, PointValue;
    var n := |common.groupBy|;
    LinedPoints(a, plan);
    LinedBase(PointValue(a), RequiresWindow(a), Clause(PointCondition(a, plan), PointArgs(a, plan)), plan, bucket, n);
    var base := BaseText(PointValue(a), RequiresWindow(a), PointCondition(a, plan), plan, bucket.sql, n);
    var own := BaseArgs(PointArgs(a, plan), plan, bucket.args);
    LinedTemporal(a, plan, Clause(base, own));
    var rest := if RequiresWindow(a) then PerSeriesArgs(a, plan) else [];
    LinedWords(Cte("__lite_series"), Comma);
    LinedWords(EndCte, Comma);
    LinedAppend(Clause([Word(Cte("__lite_series"))], []), series);
    assert [] + series.args == series.args;
    LinedAfterWords(Clause([Word(Cte("__lite_series"))] + series.sql, series.args), [Word(EndCte)],
                    Clause(TemporalText(a, plan, base), own + rest));
    assert series.args + (own + rest) == series.args + own + rest;
    LinedWords(Function(space), Comma);
    LinedHaving(common.having, Clause([Word(Function(space))], []));
    LinedMetricOrder(common, plan);
    LinedFinal(Clause([Word(Cte("__lite_series"))] + series.sql + [Word(EndCte)] + TemporalText(a, plan, base), series.args + own + rest),
               space, n, Clause(HavingText(common.having, [Word(Function(space))]), HavingArgs(common.having, [])), order, common.limit);
  }

  // ----- histograms -----

  predicate IsQuantile(s: SpaceAggregation) { s == P50 || s == P90 || s == P95 || s == P99 }

  /** The quantile the final selection takes of the weighted bounds. */
  function QuantileName(s: SpaceAggregation): string
  {
    match s
    case P50 => "quantileExactWeighted(0.50)"
    case P90 => "quantileExactWeighted(0.90)"
    case P95 => "quantileExactWeighted(0.95)"
    case P99 => "quantileExactWeighted(0.99)"
    case _ => ""
  }

  predicate HasSuffix(s: string, suffix: string)
  {
    |suffix| <= |s| && s[|s| - |suffix|..] == suffix
  }

  function HistogramText(a: Aggregation, common: Common, signal: Signal, plan: Plan): Option<Fragment>
  {
    var series := SeriesText(a, common, Metrics, plan, true);
    var bucket := MetricBucket(plan);
    var order := MetricOrder(common, plan);
    if signal == Meter || !HasSuffix(a.metric, ".bucket") || !IsQuantile(a.space) || series.None? || bucket.Failure? || order.None? then None
    else
      var n := |common.groupBy|;
      var value := if a.temporality == Cumulative then "argMax(points.value, points.unix_milli)" else "sum(points.value)";
      var base := BaseText(value, false, PointCondition(a.(typ := Histogram), plan), plan, bucket.value.sql, n);
      Some([Word(Cte("__lite_series"))] + series.value + [Word(EndCte), Word(Cte("__lite_bucketed"))] + base
           + FinalText(QuantileName(a.space), n, [], order.value, common.limit))
  }

  /** Quantile statements ignore the aggregation predicate; numeric statements carry it, so
      that different predicates give different statements. */
  lemma OnlyNumericCarriesPredicate(a: Aggregation, common: Common, signal: Signal, plan: Plan, h: Option<Having>)
    ensures HistogramText(a, common.(having := h), signal, plan) == HistogramText(a, common, signal, plan)
    ensures NumericText(a, common, signal, plan).Some? ==>
              (NumericText(a, common.(having := h), signal, plan) == NumericText(a, common, signal, plan) <==> h == common.having)
  {
    SeriesIgnoresPredicate(a, common, Metrics, plan, true, h);
    SeriesIgnoresPredicate(a, common, signal, plan, false, h);
    hide SeriesText, MetricBucket, SpaceName, MetricOrderItems, BaseText, PointCondition, TemporalText, HavingText, FinalText, PointValue;
    if NumericText(a, common, signal, plan).Some? {
      var n := |common.groupBy|;
      var space, order := SpaceName(a.space).value, MetricOrder(common, plan).value;
      var base := BaseText(PointValue(a), RequiresWindow(a), PointCondition(a, plan), plan, MetricBucket(plan).value.sql, n);
      var before := [Word(Cte("__lite_series"))] + SeriesText(a, common, signal, plan, false).value + [Word(EndCte)]
        + TemporalText(a, plan, base);
      PredicateIsCarried(before, space, n, common.having, h, order, common.limit);
    }
  }

  lemma PredicateIsCarried(before: Fragment, space: string, n: nat, g: Option<Having>, h: Option<Having>, order: Fragment, limit: nat)
    ensures var aggregation := [Word(Function(space))];
            (before + FinalText(space, n, HavingText(g, aggregation), order, limit)
             == before + FinalText(space, n, HavingText(h, aggregation), order, limit)) <==> g == h
  {
    var x, y := HavingText(g, [Word(Function(space))]), HavingText(h, [Word(Function(space))]);
    var start, end := before + [Word(EndCte), Word(Numbered(space, n))], [Word(OrderBy)] + order + LimitText(limit);
    assert before + FinalText(space, n, x, order, limit) == start + x + end;
    assert before + FinalText(space, n, y, order, limit) == start + y + end;
    hide HavingText, FinalText;
    if start + x + end == start + y + end {
      assert x == (start + x + end)[|start|..|start + x + end| - |end|];
      assert y == (start + y + end)[|start|..|start + y + end| - |end|];
      HavingTextIsExact(g, h, space);
    }
  }

  lemma HavingTextIsExact(g: Option<Having>, h: Option<Having>, space: string)
    requires HavingText(g, [Word(Function(space))]) == HavingText(h, [Word(Function(space))])
    ensures g == h
  {
    var x, y := HavingText(g, [Word(Function(space))]), HavingText(h, [Word(Function(space))]);
    if x != [] && y != [] {
      assert x[2] == y[2] && x[3] == y[3];
    }
  }

  lemma SeriesIgnoresPredicate(a: Aggregation, common: Common, signal: Signal, plan: Plan, histogram: bool, h: Option<Having>)
    ensures SeriesText(a, common.(having := h), signal, plan, histogram) == SeriesText(a, common, signal, plan, histogram)
  {
  }

  method CompileHistogram(a: Aggregation, common: Common, signal: Signal, plan: Plan) returns (r: Result<Statement, StatementError>)
    requires IsMetric(signal) && a.typ == Histogram
    ensures r.Success? <==> HistogramText(a, common, signal, plan).Some?
    ensures r.Success? ==> Delivers(r.value, HistogramText(a, common, signal, plan).value)
    ensures r.Success? ==> r.value.pagination.None? && r.value.resultLimit == common.limit
    ensures r.Success? && common.limit != 0 ==> EndsWith(r.value.sql, [Word(Limit), Placeholder(IntArg(common.limit + 1))])
  {
    hide Lined, SeriesText, MetricBucket, MetricOrder, BaseText, BaseArgs, PointCondition, FinalText, LimitArgs, HasSuffix, QuantileName;
    if signal == Meter {
      return Failure(UnsupportedSignal);
    }
    if !HasSuffix(a.metric, ".bucket") {
      return Failure(UnsupportedAggregation);
    }
    if !IsQuantile(a.space) {
      return Failure(UnsupportedAggregation);
    }
    var series: Result<Clause, StatementError> := CompileSeries(a, common, Metrics, plan, true);
    if series.Failure? {
      return Failure(series.error);
    }
    var bucket: Result<Clause, StatementError> := MetricBucket(plan);
    if bucket.Failure? {
      return Failure(bucket.error);
    }
    var n := |common.groupBy|;
    var args := series.value.args;
    if plan.resultType == TimeSeries {
      args := args + bucket.value.args;
    }
    args := args + [Str(a.metric), PhysicalTemporality(a), IntArg(plan.startMS), IntArg(plan.endMS)];
    if plan.resultType == TimeSeries {
      args := args + bucket.value.args;
    }
    var value := if a.temporality == Cumulative then "argMax(points.value, points.unix_milli)" else "sum(points.value)";
    var base := BaseText(value, false, PointCondition(a, plan), plan, bucket.value.sql, n);
    var query := [Word(Cte("__lite_series"))] + series.value.sql + [Word(EndCte), Word(Cte("__lite_bucketed"))] + base;
    var order: Option<Fragment> := MetricOrder(common, plan);
    if order.None? {
      return Failure(UnsupportedOrder);
    }
    query := query + FinalText(QuantileName(a.space), n, [], order.value, common.limit);
    HistogramArgs(a, plan, series.value.args, bucket.value.args);
    assert args == series.value.args + BaseArgs(PointArgs(a, plan), plan, bucket.value.args);
    args := args + LimitArgs(common.limit);
    HistogramLines(a, common, plan, value, series.value, bucket.value, order.value);
    FinalTextEnds([Word(Cte("__lite_series"))] + series.value.sql + [Word(EndCte), Word(Cte("__lite_bucketed"))] + base,
                  QuantileName(a.space), n, [], order.value, common.limit);
    r := Success(Statement(query, args, None, common.limit));
  }

  lemma HistogramArgs(a: Aggregation, plan: Plan, series: Args, bucket: Args)
    requires a.typ == Histogram
    ensures var time := if plan.resultType == TimeSeries then bucket else [];
            series + BaseArgs(PointArgs(a, plan), plan, bucket) ==
            series + time + [Str(a.metric), PhysicalTemporality(a), IntArg(plan.startMS), IntArg(plan.endMS)] + time
    ensures series + [] == series
  {
    assert PointArgs(a, plan) == [Str(a.metric), PhysicalTemporality(a), IntArg(plan.startMS), IntArg(plan.endMS)];
  }

  lemma HistogramLines(a: Aggregation, common: Common, plan: Plan, value: string, series: Clause, bucket: Clause, order: Fragment)
    requires Lined(series) && Lined(bucket) && MetricOrder(common, plan) == Some(order)
    ensures var n := |common.groupBy|;
            var base := BaseText(value, false, PointCondition(a, plan), plan, bucket.sql, n);
            Lined(Clause([Word(Cte("__lite_series"))] + series.sql + [Word(EndCte), Word(Cte("__lite_bucketed"))] + base
                         + FinalText(QuantileName(a.space), n, [], order, common.limit),
                         series.args + BaseArgs(PointArgs(a, plan), plan, bucket.args) + LimitArgs(common.limit)))
  {
    LinedAllWords([]);
    hide Lined, MetricOrder, BaseText, BaseArgs, PointCondition, PointArgs, FinalText, LimitArgs, QuantileName;
    var n := |common.groupBy|;
    LinedPoints(a, plan);
    LinedBase(value, false, Clause(PointCondition(a, plan), PointArgs(a, plan)), plan, bucket, n);
    var base := BaseText(value, false, PointCondition(a, plan), plan, bucket.sql, n);
    var own := BaseArgs(PointArgs(a, plan), plan, bucket.args);
    LinedWords(Cte("__lite_series"), Comma);
    LinedWords(EndCte, Cte("__lite_bucketed"));
    LinedAppend(Clause([Word(Cte("__lite_series"))], []), series);
    assert [] + series.args == series.args;
    LinedAfterWords(Clause([Word(Cte("__lite_series"))] + series.sql, series.args), [Word(EndCte), Word(Cte("__lite_bucketed"))], Clause(base, own));
    LinedMetricOrder(common, plan);
    LinedFinal(Clause([Word(Cte("__lite_series"))] + series.sql + [Word(EndCte), Word(Cte("__lite_bucketed"))] + base, series.args + own),
               QuantileName(a.space), n, Clause([], []), order, common.limit);
    assert series.args + own + [] == series.args + own;
  }

  // ----- every statement -----

  method CompileMetric(a: Aggregation, common: Common, signal: Signal, plan: Plan) returns (r: Result<Statement, StatementError>)
    requires IsMetric(signal)
    ensures r.Success? <==>
              && common.cursor == "" && (plan.resultType == TimeSeries || plan.resultType == SingleValue)
              && (signal == Meter ==> a.typ == Sum)
              && (if a.typ == Histogram && IsQuantile(a.space) then HistogramText(a, common, signal, plan).Some?
                  else NumericText(a, common, signal, plan).Some?)
    ensures r.Success? ==> Delivers(r.value, r.value.sql) && SqlText.Slots(r.value.sql) == |r.value.args|
    ensures r.Success? && a.typ == Histogram && IsQuantile(a.space) ==>
              Some(r.value.sql) == HistogramText(a, common, signal, plan)
    ensures r.Success? && !(a.typ == Histogram && IsQuantile(a.space)) ==>
              Some(r.value.sql) == NumericText(a, common, signal, plan)
  {
    hide HistogramText, NumericText, Lined, SqlText.Slots;
    if common.cursor != "" {
      return Failure(UnsupportedCursor);
    }
    if plan.resultType != TimeSeries && plan.resultType != SingleValue {
      return Failure(UnsupportedAggregation);
    }
    if signal == Meter && a.typ != Sum {
      return Failure(UnsupportedAggregation);
    }
    if a.typ == Histogram && IsQuantile(a.space) {
      r := CompileHistogram(a, common, signal, plan);
    } else {
      r := CompileNumericMetric(a, common, signal, plan);
    }
    if r.Success? {
      DeliveredOneForOne(r.value, r.value.sql);
    }
  }
}
