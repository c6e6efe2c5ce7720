/** Which queries count: at a key where they have no row, formulas read zero. */
module PlanDefaults {
  import opened Statements
  import opened MetricStatements

  datatype Query =
    | LogQuery(name: string, log: LogAggregation)
    | TraceQuery(name: string, trace: TraceAggregation)
    | MetricQuery(name: string, time: TimeAggregation)
    | MeterQuery(name: string, time: TimeAggregation)

  predicate DefaultsMissingToZero(time: TimeAggregation)
  {
    time == CountOver || time == SumOver || time == Rate || time == Increase
  }

  predicate DefaultsToZero(q: Query)
  {
    match q
    case LogQuery(_, log) => log == LogCount || log == LogSum
    case TraceQuery(_, trace) => trace == TraceCount
    case MetricQuery(_, time) => DefaultsMissingToZero(time)
    case MeterQuery(_, time) => DefaultsMissingToZero(time)
  }

  /** A query of this name that no later one replaces. */
  predicate IsLastOf(queries: seq<Query>, name: string, i: nat)
  {
    i < |queries| && queries[i].name == name && forall k :: i < k < |queries| ==> queries[k].name != name
  }

  /** Counts and sums of logs, counts of spans, and counts, sums, rates and increases over time. */
  predicate Counts(q: Query)
  {
    || q in {LogQuery(q.name, LogCount), LogQuery(q.name, LogSum), TraceQuery(q.name, TraceCount)}
    || ((q.MetricQuery? || q.MeterQuery?) && q.time in {CountOver, SumOver, Rate, Increase})
  }

  method FormulaZeroDefaults(queries: seq<Query>) returns (zeros: set<string>)
    ensures forall name: string, i: nat :: IsLastOf(queries, name, i) ==> (name in zeros <==> Counts(queries[i]))
    ensures forall name :: name in zeros ==> exists i: nat :: IsLastOf(queries, name, i)
  {
    var defaults: map<string, bool> := map[];
    assert queries[..0] == [];
    for i := 0 to |queries|
      invariant forall name: string, k: nat :: IsLastOf(queries[..i], name, k) ==> name in defaults && defaults[name] == Counts(queries[k])
      invariant forall name :: name in defaults ==> exists k: nat :: IsLastOf(queries[..i], name, k)
    {
      ghost var now := queries[..i + 1];
      defaults := defaults[queries[i].name := DefaultsToZero(queries[i])];
      forall name | name in defaults ensures exists k: nat :: IsLastOf(now, name, k) {
        if name == queries[i].name {
          assert IsLastOf(now, name, i);
        } else {
          var k: nat :| IsLastOf(queries[..i], name, k);
          assert IsLastOf(now, name, k);
        }
      }
      forall name: string, k: nat | IsLastOf(now, name, k)
        ensures name in defaults && defaults[name] == Counts(queries[k])
      {
        if k < i {
          assert now[i].name != name;
          assert IsLastOf(queries[..i], name, k);
        }
      }
    }
    assert queries[..|queries|] == queries;
    zeros := set name | name in defaults && defaults[name];
  }
}
