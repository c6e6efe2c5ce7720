/** Where in its text a metric statement receives which value, spelled out. */
module MetricValues {
  import opened Fields
  import opened FilterSql
  import opened FieldCatalog
  import opened FilterCompiler
  import opened SqlText
  import opened StatementClauses
  import opened Statements
  import opened MetricStatements
  import opened StatementValues
  import opened Results

  function StoredType(t: MetricType): string
  {
    match t case Gauge => "Gauge" case Sum => "Sum" case Histogram => "Histogram" case OtherType => ""
  }

  function StoredTemporality(t: Temporality): string
  {
    match t case Delta => "Delta" case Cumulative => "Cumulative" case _ => "Unspecified"
  }

  function Then(phrase: string, v: Scalar): Fragment { [Word(Fixed(phrase)), Placeholder(v)] }

  // ----- series -----

  /** Series of a metric: a gauge may be stored as a sum that does not grow. */
  function SeriesOf(a: Aggregation): Fragment
  {
    if a.typ == Gauge then
      Then("metric_name =", Str(a.metric)) + Then("AND (type =", Str("Gauge")) + Then("OR (type =", Str("Sum"))
      + Then("AND is_monotonic =", Boolean(false)) + Then(")) AND __normalized =", Boolean(false))
    else
      Then("metric_name =", Str(a.metric)) + Then("AND type =", Str(StoredType(a.typ)))
      + Then("AND lower(temporality) = lower", Str(StoredTemporality(a.temporality))) + Then("AND __normalized =", Boolean(false))
  }

  function MeterSeriesOf(a: Aggregation, plan: Plan): Fragment
  {
    Then("metric_name =", Str(a.metric)) + Then("AND lower(temporality) = lower", Str(StoredTemporality(a.temporality)))
    + Then("AND unix_milli >=", Number(plan.startMS)) + Then("AND unix_milli <", Number(plan.endMS))
  }

  lemma ConditionIs(a: Aggregation, plan: Plan, signal: Signal)
    ensures Condition(a, plan, signal).sql == if signal == Metrics then SeriesOf(a) else MeterSeriesOf(a, plan)
  {
  }

  lemma SeriesValues(a: Aggregation, common: Common, signal: Signal, plan: Plan, histogram: bool)
    requires SeriesText(a, common, signal, plan, histogram).Some?
    ensures Contains(SeriesText(a, common, signal, plan, histogram).value,
                     if signal == Metrics then SeriesOf(a) else MeterSeriesOf(a, plan))
  {
    ConditionIs(a, plan, signal);
    hide Contains, SeriesOf, MeterSeriesOf, Condition, Compile, ResolveAll, Columns, Reads, Leading, FilterText;
    var fields := ResolveAll(signal, SeriesFields(common.groupBy, histogram)).value;
    var filter := Compile(signal, common.filter).value;
    var before := [Word(Fixed("SELECT fingerprint"))] + Leading(Columns(fields, "group_")) + [Word(Where)];
    var sql, condition := SeriesText(a, common, signal, plan, histogram).value, Condition(a, plan, signal).sql;
    var rest := FilterText(filter) + [Word(Fixed(" GROUP BY fingerprint"))] + Leading(Reads(fields));
    Regrouped(before, condition, FilterText(filter), [Word(Fixed(" GROUP BY fingerprint"))], Leading(Reads(fields)));
    ContainsHere(before, condition, rest);
  }

  lemma {:induction false} LeadingHolds(parts: seq<Fragment>, k: nat)
    requires k < |parts|
    ensures Contains(Leading(parts), parts[k])
    decreases |parts|
  {
    hide Contains;
    var last := |parts| - 1;
    var before := Leading(parts[..last]);
    if k == last {
      assert Leading(parts) == (before + [Word(Comma)]) + parts[last] + [];
      ContainsHere(before + [Word(Comma)], parts[last], []);
    } else {
      LeadingHolds(parts[..last], k);
      assert Leading(parts) == [] + before + ([Word(Comma)] + parts[last]);
      ContainsInside([], before, [Word(Comma)] + parts[last], parts[k]);
    }
  }

  /** Series carry the fields grouped by, in their order, and behind them for a quantile the bound
      of their bucket. */
  lemma SeriesColumns(a: Aggregation, common: Common, signal: Signal, plan: Plan, histogram: bool)
    requires SeriesText(a, common, signal, plan, histogram).Some?
    ensures var sql := SeriesText(a, common, signal, plan, histogram).value;
            var bound := FieldRef("le", Label, StringType);
            && (forall k: nat :: k < |common.groupBy| ==>
                  && Locate(signal, common.groupBy[k]).Success?
                  && Contains(sql, [ReadingOf(signal, common.groupBy[k]), Word(Numbered("group_", k))]))
            && (histogram ==>
                  && Locate(signal, bound).Success?
                  && Contains(sql, [ReadingOf(signal, bound), Word(Numbered("group_", |common.groupBy|))]))
            && Compile(signal, common.filter).Success?
            && (Compile(signal, common.filter).value.sql != Blank ==> Contains(sql, FilterTest(signal, common.filter)))
  {
    hide Contains, Condition, Compile, ResolveAll, Columns, Reads, Leading, Locate, ReadingOf;
    var fields := SeriesFields(common.groupBy, histogram);
    var columns := Columns(ResolveAll(signal, fields).value, "group_");
    var sql, condition := SeriesText(a, common, signal, plan, histogram).value, Condition(a, plan, signal).sql;
    var filter, groups := FilterText(Compile(signal, common.filter).value), Leading(Reads(ResolveAll(signal, fields).value));
    SeriesParts([Word(Fixed("SELECT fingerprint"))], Leading(columns), [Word(Where)], condition, filter,
                [Word(Fixed(" GROUP BY fingerprint"))], groups);
    assert sql == [Word(Fixed("SELECT fingerprint"))] + Leading(columns)
                  + ([Word(Where)] + condition + filter + [Word(Fixed(" GROUP BY fingerprint"))] + groups);
    Placed(sql, [Word(Fixed("SELECT fingerprint"))], Leading(columns),
           [Word(Where)] + condition + filter + [Word(Fixed(" GROUP BY fingerprint"))] + groups);
    Placed(sql, [Word(Fixed("SELECT fingerprint"))] + Leading(columns) + [Word(Where)] + condition, filter,
           [Word(Fixed(" GROUP BY fingerprint"))] + groups);
    if Compile(signal, common.filter).value.sql != Blank {
      ContainsHere([Word(AndOpen)], FilterTest(signal, common.filter), [Word(Close)]);
      assert filter == [Word(AndOpen)] + FilterTest(signal, common.filter) + [Word(Close)];
    }
    forall k: nat | k < |fields|
      ensures Locate(signal, fields[k]).Success? && Contains(sql, [ReadingOf(signal, fields[k]), Word(Numbered("group_", k))])
    {
      ColumnsAre(signal, fields, "group_", k);
      LeadingHolds(columns, k);
    }
    assert forall k: nat :: k < |common.groupBy| ==> fields[k] == common.groupBy[k];
    assert histogram ==> fields[|common.groupBy|] == FieldRef("le", Label, StringType);
  }

  lemma SeriesParts(a: Fragment, b: Fragment, c: Fragment, d: Fragment, e: Fragment, f: Fragment, g: Fragment)
    ensures a + b + c + d + e + f + g == a + b + (c + d + e + f + g)
    ensures a + b + c + d + e + f + g == (a + b + c + d) + e + (f + g)
  {
  }

  // ----- points -----

  /** Points of the metric from the start on and before the end. */
  function PointsOf(a: Aggregation, plan: Plan): Fragment
  {
    Then("points.metric_name =", Str(a.metric))
    + (if a.typ == Gauge then [] else Then("AND lower(points.temporality) = lower", Str(StoredTemporality(a.temporality))))
    + Then("AND points.unix_milli >=", Number(plan.startMS)) + Then("AND points.unix_milli <", Number(plan.endMS))
  }

  lemma PointsAre(a: Aggregation, plan: Plan)
    ensures PointCondition(a, plan) == PointsOf(a, plan)
  {
  }

  lemma BucketOfPoints(plan: Plan)
    requires MetricBucket(plan).Success?
    ensures plan.resultType == SingleValue ==> MetricBucket(plan).value.sql == []
    ensures plan.resultType != SingleValue ==> plan.stepMS > 0 && MetricBucket(plan).value.sql == BucketIn(Millis, plan.stepMS, plan.stepMS)
  {
  }

  /** When a point counts: in its bucket of a series, else at its own instant. */
  function ClockOf(plan: Plan, bucket: Fragment): Fragment
  {
    if plan.resultType == TimeSeries then bucket else [Word(Name("points.unix_milli"))]
  }

  predicate IsTimed(plan: Plan, sampled: bool) { plan.resultType == TimeSeries || sampled }

  /** What the first phase holds: the points selected, their value, and for series and counters
      the clock they are grouped by. */
  ghost predicate HoldsPoints(sql: Fragment, value: string, sampled: bool, a: Aggregation, plan: Plan, bucket: Fragment, n: nat)
  {
    && Contains(sql, PointsOf(a, plan)) && Contains(sql, [Word(Function(value))])
    && (IsTimed(plan, sampled) ==>
          && Contains(sql, ClockOf(plan, bucket) + [Word(Aliased("timestamp"))])
          && Contains(sql, [Word(Numbered(" GROUP BY points.fingerprint, group_", n))] + ClockOf(plan, bucket)))
  }

  lemma BaseValues(value: string, sampled: bool, a: Aggregation, plan: Plan, bucket: Fragment, n: nat)
    ensures HoldsPoints(BaseText(value, sampled, PointCondition(a, plan), plan, bucket, n), value, sampled, a, plan, bucket, n)
  {
    PointsAre(a, plan);
    hide Contains, PointsOf, PointCondition;
    var points := PointsOf(a, plan);
    var sql := BaseText(value, sampled, points, plan, bucket, n);
    var first := [Word(Fixed("SELECT points.fingerprint, "))];
    var time := PointTime(sampled, plan, bucket);
    var alias := if plan.resultType == TimeSeries || sampled then [Word(Aliased("timestamp"))] else [];
    var series, fn := [Word(Numbered("series.group_", n))], [Word(Function(value))];
    var from := [Word(Fixed("FROM points INNER JOIN __lite_series")), Word(Where)];
    var groups := [Word(Numbered(" GROUP BY points.fingerprint, group_", n))];
    assert [Word(Numbered("series.group_", n)), Word(Function(value)), Word(Fixed("FROM points INNER JOIN __lite_series")), Word(Where)]
        == series + fn + from;
    assert sql == first + (time + alias) + (series + fn + from) + points + groups + time;
    BaseParts(first, time + alias, series, fn, from, points, groups, time);
    hide BaseText, PointTime, ClockOf;
    ContainsHere(first + (time + alias) + series + fn + from, points, groups + time);
    ContainsHere(first + (time + alias) + series, fn, from + points + groups + time);
    if IsTimed(plan, sampled) {
      ContainsHere(first, time + alias, series + fn + from + points + groups + time);
      ContainsHere(first + (time + alias) + series + fn + from + points, groups + time, []);
      TimeIsClock(sampled, plan, bucket);
    }
  }

  lemma TimeIsClock(sampled: bool, plan: Plan, bucket: Fragment)
    ensures IsTimed(plan, sampled) ==> PointTime(sampled, plan, bucket) == ClockOf(plan, bucket)
  {
  }

  lemma BaseParts(a: Fragment, b: Fragment, c: Fragment, d: Fragment, e: Fragment, f: Fragment, g: Fragment, h: Fragment)
    ensures a + b + (c + d + e) + f + g + h == (a + b + c + d + e) + f + (g + h)
    ensures a + b + (c + d + e) + f + g + h == (a + b + c) + d + (e + f + g + h)
    ensures a + b + (c + d + e) + f + g + h == a + b + (c + d + e + f + g + h)
    ensures a + b + (c + d + e) + f + g + h == (a + b + c + d + e + f) + (g + h) + []
  {
  }

  // ----- rates -----

  /** How the points of one series in one bucket become one value: counters take the latest
      point when cumulative and the sum when not. */
  predicate PointsBecome(a: Aggregation, value: string)
  {
    match a.time
    case SumOver => value == "sum(points.value)"
    case AvgOver => value == "avg(points.value)"
    case MinOver => value == "min(points.value)"
    case MaxOver => value == "max(points.value)"
    case CountOver => value == "count(points.value)"
    case Latest => value == "argMax(points.value, points.unix_milli)"
    case OtherTime => false
    case _ => value == if a.temporality == Cumulative then "argMax(points.value, points.unix_milli)" else "sum(points.value)"
  }

  /** How the values of the series in one group become one value. */
  predicate SeriesBecome(s: SpaceAggregation, value: string)
  {
    || (s == SumAcross && value == "sum(per_series_value)") || (s == AvgAcross && value == "avg(per_series_value)")
    || (s == MinAcross && value == "min(per_series_value)") || (s == MaxAcross && value == "max(per_series_value)")
    || (s == CountAcross && value == "count(per_series_value)")
  }

  /** What becomes of the buckets of one series of a counter: a difference when cumulative, else the
      bucket itself, for a rate over the seconds of the bucket or of the whole range. */
  predicate BucketsBecome(a: Aggregation, plan: Plan, value: Fragment)
  {
    if a.temporality == Cumulative then
      value == [Word(Fixed(if a.time == Rate then "increase per second since the previous bucket" else "increase since the previous bucket"))]
    else if a.time == Increase then value == [Word(Name("bucket_value"))]
    else if plan.resultType == TimeSeries then value == Then("bucket_value / (", Number(plan.stepMS))
    else value == Then("bucket_value / ((", Number(plan.endMS)) + Then("-", Number(plan.startMS))
  }

  lemma CounterIs(a: Aggregation, plan: Plan)
    requires a.time == Rate || a.time == Increase
    ensures BucketsBecome(a, plan, PerSeries(a, plan))
  {
  }

  lemma TemporalHolds(a: Aggregation, plan: Plan, base: Fragment)
    ensures Contains(TemporalText(a, plan, base), base)
    ensures a.time == Rate || a.time == Increase ==> Contains(TemporalText(a, plan, base), PerSeries(a, plan))
  {
    hide Contains, PerSeries;
    var sql := TemporalText(a, plan, base);
    if RequiresWindow(a) {
      var words := [Word(EndCte), Word(Cte("__lite_temporal"))];
      ContainsHere([Word(Cte("__lite_bucketed"))], base, words + PerSeries(a, plan));
      assert sql == [Word(Cte("__lite_bucketed"))] + base + (words + PerSeries(a, plan));
      ContainsHere([Word(Cte("__lite_bucketed"))] + base + words, PerSeries(a, plan), []);
      assert sql == [Word(Cte("__lite_bucketed"))] + base + words + PerSeries(a, plan) + [];
    } else {
      ContainsHere([Word(Cte("__lite_temporal"))], base, []);
      assert sql == [Word(Cte("__lite_temporal"))] + base + [];
    }
  }

  /** A numeric statement aggregates the points of the selected series in two phases. */
  lemma NumericValues(a: Aggregation, common: Common, signal: Signal, plan: Plan)
    returns (points: string, series: string, buckets: Fragment)
    requires IsMetric(signal) && NumericText(a, common, signal, plan).Some?
    ensures PointsBecome(a, points) && SeriesBecome(a.space, series)
    ensures SeriesText(a, common, signal, plan, false).Some?
    ensures var sql := NumericText(a, common, signal, plan).value;
            && Inherits(sql, SeriesText(a, common, signal, plan, false).value)
            && Contains(sql, if signal == Metrics then SeriesOf(a) else MeterSeriesOf(a, plan))
            && (plan.resultType == TimeSeries ==> plan.stepMS > 0)
            && HoldsPoints(sql, points, a.time == Rate || a.time == Increase, a, plan, BucketIn(Millis, plan.stepMS, plan.stepMS),
                           |common.groupBy|)
            && Contains(sql, [Word(EndCte), Word(Numbered(series, |common.groupBy|))])
            && (a.time == Rate || a.time == Increase ==> BucketsBecome(a, plan, buckets) && Contains(sql, buckets))
            && (common.having.Some? ==> Contains(sql, HavingPart([Word(Function(series))], common.having.value)))
  {
    hide Contains, SeriesOf, MeterSeriesOf, PointsOf, SeriesText, MetricBucket, MetricOrder, BaseText, PointCondition, TemporalText,
      PerSeries, PointValue, SpaceName, HavingText, HavingPart, BucketIn, BucketsBecome, PointsBecome, SeriesBecome, LimitText, Inherits,
      NumericText, HoldsPoints;
    NumericNames(a, common, signal, plan);
    BucketOfPoints(plan);
    points, series, buckets := PointValue(a), SpaceName(a.space).value, PerSeries(a, plan);
    var n, bucket := |common.groupBy|, MetricBucket(plan).value.sql;
    var sql, base := NumericText(a, common, signal, plan).value, BaseText(points, RequiresWindow(a), PointCondition(a, plan), plan, bucket, n);
    var selected := SeriesText(a, common, signal, plan, false).value;
    NumericShape(a, common, signal, plan);
    SeriesValues(a, common, signal, plan, false);
    Use(sql, selected, if signal == Metrics then SeriesOf(a) else MeterSeriesOf(a, plan));
    BaseValues(points, RequiresWindow(a), a, plan, bucket, n);
    UseBase(sql, base, points, RequiresWindow(a), a, plan, bucket, n);
    SameClock(sql, points, RequiresWindow(a), a, plan, bucket, n);
    if common.having.Some? {
      HavingHolds(common.having.value, [Word(Function(series))]);
      Use(sql, HavingText(common.having, [Word(Function(series))]), HavingPart([Word(Function(series))], common.having.value));
    }
  }

  lemma NumericNames(a: Aggregation, common: Common, signal: Signal, plan: Plan)
    requires NumericText(a, common, signal, plan).Some?
    ensures SeriesText(a, common, signal, plan, false).Some? && MetricBucket(plan).Success? && SpaceName(a.space).Some?
    ensures PointsBecome(a, PointValue(a)) && SeriesBecome(a.space, SpaceName(a.space).value)
    ensures a.time == Rate || a.time == Increase ==> BucketsBecome(a, plan, PerSeries(a, plan))
  {
    hide SeriesText, MetricBucket, MetricOrder, BaseText, PointCondition, TemporalText, FinalText;
    if a.time == Rate || a.time == Increase {
      CounterIs(a, plan);
    }
  }

  lemma NumericShape(a: Aggregation, common: Common, signal: Signal, plan: Plan)
    requires NumericText(a, common, signal, plan).Some?
    ensures var sql, series, n := NumericText(a, common, signal, plan).value, SpaceName(a.space).value, |common.groupBy|;
            && Inherits(sql, SeriesText(a, common, signal, plan, false).value)
            && Inherits(sql, BaseText(PointValue(a), RequiresWindow(a), PointCondition(a, plan), plan, MetricBucket(plan).value.sql, n))
            && (a.time == Rate || a.time == Increase ==> Contains(sql, PerSeries(a, plan)))
            && Contains(sql, [Word(EndCte), Word(Numbered(series, n))])
            && Inherits(sql, HavingText(common.having, [Word(Function(series))]))
  {
    hide Contains, SeriesText, MetricBucket, MetricOrder, BaseText, PointCondition, TemporalText, PerSeries, PointValue, SpaceName,
      HavingText, LimitText, Inherits;
    var series, n := SpaceName(a.space).value, |common.groupBy|;
    var base := BaseText(PointValue(a), RequiresWindow(a), PointCondition(a, plan), plan, MetricBucket(plan).value.sql, n);
    var selected, temporal := SeriesText(a, common, signal, plan, false).value, TemporalText(a, plan, base);
    var having, order := HavingText(common.having, [Word(Function(series))]), MetricOrder(common, plan).value;
    var sql := NumericText(a, common, signal, plan).value;
    var first, words := [Word(Cte("__lite_series"))], [Word(EndCte), Word(Numbered(series, n))];
    NumericParts(first, selected, temporal, words, having, [Word(OrderBy)], order, LimitText(common.limit));
    assert sql == first + selected + [Word(EndCte)] + temporal + (words + having + [Word(OrderBy)] + order + LimitText(common.limit));
    TemporalHolds(a, plan, base);
    HoldsAll(sql, temporal, base);
    if a.time == Rate || a.time == Increase {
      Use(sql, temporal, PerSeries(a, plan));
    }
  }

  /** What a base holds is held by what inherits its parts. */
  lemma UseBase(sql: Fragment, base: Fragment, value: string, sampled: bool, a: Aggregation, plan: Plan, bucket: Fragment, n: nat)
    requires Inherits(sql, base) && HoldsPoints(base, value, sampled, a, plan, bucket, n)
    ensures HoldsPoints(sql, value, sampled, a, plan, bucket, n)
  {
    hide Contains, PointsOf, ClockOf;
  }

  lemma SameClock(sql: Fragment, value: string, sampled: bool, a: Aggregation, plan: Plan, bucket: Fragment, n: nat)
    requires HoldsPoints(sql, value, sampled, a, plan, bucket, n)
    requires plan.resultType == TimeSeries ==> bucket == BucketIn(Millis, plan.stepMS, plan.stepMS)
    ensures HoldsPoints(sql, value, sampled, a, plan, BucketIn(Millis, plan.stepMS, plan.stepMS), n)
  {
    hide Contains, PointsOf, BucketIn;
  }

  /** Parts of a part of a part. */
  lemma HoldsAll(sql: Fragment, part: Fragment, inner: Fragment)
    requires Contains(part, inner) && Inherits(sql, part)
    ensures Inherits(sql, inner)
  {
    forall p | Contains(inner, p) ensures Contains(sql, p) {
      var i: nat :| At(part, i, inner);
      Splits(part, i, inner);
      ContainsInside(part[..i], inner, part[i + |inner|..], p);
    }
  }

  lemma NumericParts(a: Fragment, b: Fragment, d: Fragment, e: Fragment, f: Fragment, g: Fragment, h: Fragment, i: Fragment)
    ensures var sql := a + b + [Word(EndCte)] + d + (e + f + g + h + i);
            Inherits(sql, b) && Inherits(sql, d) && Contains(sql, e) && Inherits(sql, f)
  {
    hide Contains;
    var end := [Word(EndCte)];
    var sql := a + b + end + d + (e + f + g + h + i);
    assert sql == a + b + (end + d + e + f + (g + h + i)) && sql == (a + b + end) + d + (e + f + (g + h + i));
    assert sql == (a + b + end + d) + e + (f + (g + h + i)) && sql == (a + b + end + d + e) + f + (g + h + i);
    Placed(sql, a, b, end + d + e + f + (g + h + i));
    Placed(sql, a + b + end, d, e + f + (g + h + i));
    Placed(sql, a + b + end + d, e, f + (g + h + i));
    Placed(sql, a + b + end + d + e, f, g + h + i);
  }

  /** A quantile statement selects the cumulative buckets of the histogram by bound. */
  lemma HistogramValues(a: Aggregation, common: Common, signal: Signal, plan: Plan) returns (points: string, quantile: string)
    requires IsMetric(signal) && a.typ == Histogram && HistogramText(a, common, signal, plan).Some?
    ensures points == if a.temporality == Cumulative then "argMax(points.value, points.unix_milli)" else "sum(points.value)"
    ensures || (a.space == P50 && quantile == "quantileExactWeighted(0.50)") || (a.space == P90 && quantile == "quantileExactWeighted(0.90)")
            || (a.space == P95 && quantile == "quantileExactWeighted(0.95)") || (a.space == P99 && quantile == "quantileExactWeighted(0.99)")
    ensures SeriesText(a, common, Metrics, plan, true).Some?
    ensures var sql := HistogramText(a, common, signal, plan).value;
            && Inherits(sql, SeriesText(a, common, Metrics, plan, true).value)
            && (plan.resultType == TimeSeries ==> plan.stepMS > 0)
            && Contains(sql, SeriesOf(a))
            && HoldsPoints(sql, points, false, a, plan, BucketIn(Millis, plan.stepMS, plan.stepMS), |common.groupBy|)
            && Contains(sql, [Word(EndCte), Word(Numbered(quantile, |common.groupBy|))])
  {
    hide Contains, SeriesOf, MeterSeriesOf, PointsOf, SeriesText, MetricBucket, BaseText, PointCondition, QuantileName, BucketIn, Inherits,
      HistogramText, HoldsPoints;
    points := if a.temporality == Cumulative then "argMax(points.value, points.unix_milli)" else "sum(points.value)";
    quantile := QuantileName(a.space);
    HistogramNames(a, common, signal, plan);
    BucketOfPoints(plan);
    var n, bucket := |common.groupBy|, MetricBucket(plan).value.sql;
    var sql, base := HistogramText(a, common, signal, plan).value, BaseText(points, false, PointCondition(a, plan), plan, bucket, n);
    HistogramShape(a, common, signal, plan, points, quantile);
    SeriesValues(a, common, Metrics, plan, true);
    Use(sql, SeriesText(a, common, Metrics, plan, true).value, SeriesOf(a));
    BaseValues(points, false, a, plan, bucket, n);
    UseBase(sql, base, points, false, a, plan, bucket, n);
    SameClock(sql, points, false, a, plan, bucket, n);
  }

  lemma HistogramNames(a: Aggregation, common: Common, signal: Signal, plan: Plan)
    requires HistogramText(a, common, signal, plan).Some?
    ensures SeriesText(a, common, Metrics, plan, true).Some? && MetricBucket(plan).Success?
    ensures var quantile := QuantileName(a.space);
            || (a.space == P50 && quantile == "quantileExactWeighted(0.50)") || (a.space == P90 && quantile == "quantileExactWeighted(0.90)")
            || (a.space == P95 && quantile == "quantileExactWeighted(0.95)") || (a.space == P99 && quantile == "quantileExactWeighted(0.99)")
  {
    hide SeriesText, MetricBucket, MetricOrder, BaseText, PointCondition, FinalText;
  }

  lemma HistogramShape(a: Aggregation, common: Common, signal: Signal, plan: Plan, points: string, quantile: string)
    requires a.typ == Histogram && HistogramText(a, common, signal, plan).Some?
    requires points == if a.temporality == Cumulative then "argMax(points.value, points.unix_milli)" else "sum(points.value)"
    requires quantile == QuantileName(a.space)
    ensures SeriesText(a, common, Metrics, plan, true).Some? && MetricBucket(plan).Success?
    ensures var sql, n := HistogramText(a, common, signal, plan).value, |common.groupBy|;
            && Inherits(sql, SeriesText(a, common, Metrics, plan, true).value)
            && Inherits(sql, BaseText(points, false, PointCondition(a, plan), plan, MetricBucket(plan).value.sql, n))
            && Contains(sql, [Word(EndCte), Word(Numbered(quantile, n))])
  {
    hide Contains, SeriesText, MetricBucket, MetricOrder, BaseText, PointCondition, QuantileName, LimitText, Inherits;
    var n := |common.groupBy|;
    var base := BaseText(points, false, PointCondition(a, plan), plan, MetricBucket(plan).value.sql, n);
    assert a.(typ := Histogram) == a;
    var selected, order := SeriesText(a, common, Metrics, plan, true).value, MetricOrder(common, plan).value;
    HistogramParts([Word(Cte("__lite_series"))], selected, [Word(EndCte), Word(Cte("__lite_bucketed"))], base,
                   [Word(EndCte), Word(Numbered(quantile, n))], [Word(OrderBy)], order, LimitText(common.limit));
  }

  lemma HistogramParts(a: Fragment, b: Fragment, c: Fragment, d: Fragment, e: Fragment, g: Fragment, h: Fragment, i: Fragment)
    ensures var sql := a + b + c + d + (e + [] + g + h + i);
            Inherits(sql, b) && Inherits(sql, d) && Contains(sql, e)
  {
    hide Contains;
    var sql := a + b + c + d + (e + [] + g + h + i);
    assert sql == a + b + (c + d + e + (g + h + i)) && sql == (a + b + c) + d + (e + (g + h + i));
    assert sql == (a + b + c + d) + e + (g + h + i);
    Placed(sql, a, b, c + d + e + (g + h + i));
    Placed(sql, a + b + c, d, e + (g + h + i));
    Placed(sql, a + b + c + d, e, g + h + i);
  }

  // ----- order -----

  /** Rows are ordered by the value or by a group; a field that is no group is refused. */
  lemma MetricOrderIs(common: Common, plan: Plan)
    ensures common.order == [] ==>
              MetricOrder(common, plan) == Some([Word(Fixed(if plan.resultType == TimeSeries then "timestamp ASC" else "value DESC"))])
    ensures MetricOrder(common, plan).Some? <==>
              forall k :: 0 <= k < |common.order| ==>
                common.order[k].target == ByAggregation || (common.order[k].target == ByField && common.order[k].field in common.groupBy)
    ensures common.order != [] && MetricOrder(common, plan).Some? ==>
              forall k :: 0 <= k < |common.order| ==> OrderedBy(common.order[k], common.groupBy, MetricOrder(common, plan).value)
  {
    hide MetricOrderItem, OrderedBy, Contains, Joined;
    if common.order != [] {
      MetricItemsAre(common.order, common.groupBy);
      var items := MetricOrderItems(common.order, common.groupBy);
      if items.Some? {
        forall k | 0 <= k < |common.order| ensures OrderedBy(common.order[k], common.groupBy, Joined(items.value)) {
          JoinedHolds(items.value, k);
          OrderedIs(common.order[k], common.groupBy, Joined(items.value));
        }
      }
    }
  }

  ghost predicate OrderedBy(o: Order, groupBy: seq<FieldRef>, sql: Fragment)
  {
    if o.target == ByAggregation then Contains(sql, [Word(Sorted("value", o.direction))])
    else exists k :: 0 <= k < |groupBy| && groupBy[k] == o.field && Contains(sql, [Word(SortedNumbered("group_", k, o.direction))])
  }

  lemma OrderedIs(o: Order, groupBy: seq<FieldRef>, sql: Fragment)
    requires MetricOrderItem(o, groupBy).Some? && Contains(sql, MetricOrderItem(o, groupBy).value)
    ensures OrderedBy(o, groupBy, sql)
  {
    hide Contains;
  }

  lemma {:induction false} MetricItemsAre(orders: seq<Order>, groupBy: seq<FieldRef>)
    ensures MetricOrderItems(orders, groupBy).Some? <==>
              forall k :: 0 <= k < |orders| ==>
                orders[k].target == ByAggregation || (orders[k].target == ByField && orders[k].field in groupBy)
    ensures MetricOrderItems(orders, groupBy).Some? ==>
              && |MetricOrderItems(orders, groupBy).value| == |orders|
              && forall k :: 0 <= k < |orders| ==> MetricOrderItem(orders[k], groupBy) == Some(MetricOrderItems(orders, groupBy).value[k])
  {
    if orders != [] {
      var last := |orders| - 1;
      MetricItemsAre(orders[..last], groupBy);
      assert orders == orders[..last] + [orders[last]];
      assert MetricOrderItem(orders[last], groupBy).Some? <==>
             orders[last].target == ByAggregation || (orders[last].target == ByField && orders[last].field in groupBy);
    }
  }
}
