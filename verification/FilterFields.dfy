/** Which stored values a filter on a field tests, field by field, and what each test means. */
module FilterFields {
  import opened Fields
  import opened Filters
  import opened FilterSql
  import opened FieldCatalog
  import opened FilterCompiler
  import opened FilterMeaning
  import opened FilterProperties
  import opened Results
  import opened Strings

  // ----- what a test means -----

  predicate IsValue(v: Scalar, o: Operand)
  {
    match o.kind
    case StringKind => v == Str(o.text)
    case NumberKind => v == Num(o.number)
    case BoolKind => v == Boolean(o.truth)
    case _ => false
  }

  predicate IsBelow(g: Engine, v: Scalar, o: Operand)
  {
    match v
    case Str(s) => o.kind == StringKind && g.before(s, o.text)
    case Num(Finite(x)) => o.kind == NumberKind && o.number.Finite? && x < o.number.x
    case Boolean(b) => o.kind == BoolKind && !b && o.truth
    case _ => false
  }

  predicate IsAbove(g: Engine, v: Scalar, o: Operand)
  {
    match v
    case Str(s) => o.kind == StringKind && g.before(o.text, s)
    case Num(Finite(x)) => o.kind == NumberKind && o.number.Finite? && x > o.number.x
    case Boolean(b) => o.kind == BoolKind && b && !o.truth
    case _ => false
  }

  predicate IsListed(v: Scalar, o: Operand)
  {
    match v
    case Str(s) => s in o.strings
    case Num(x) => x in o.numbers
    case Boolean(b) => b in o.bools
    case Null => false
  }

  /** The test of a field that is there or not, and of the value read for it. A negative operator
      tests the value even if the field is not there; null passes no test of a value. */
  predicate Passes(g: Engine, p: FilterNode, present: bool, v: Scalar)
    requires p.Predicate?
  {
    var o := p.operand;
    match p.op
    case Exists => present
    case NotExists => !present
    case Equal => present && IsValue(v, o)
    case NotEqual => v != Null && !IsValue(v, o)
    case GreaterThan => present && IsAbove(g, v, o)
    case GreaterEq => present && (IsAbove(g, v, o) || IsValue(v, o))
    case LessThan => present && IsBelow(g, v, o)
    case LessEq => present && (IsBelow(g, v, o) || IsValue(v, o))
    case In => present && IsListed(v, o)
    case NotIn => v != Null && !IsListed(v, o)
    case Contains => present && v != Null && g.position(g.text(v), o.text) > 0
    case NotContains => v != Null && g.position(g.text(v), o.text) == 0
    case Like => present && v != Null && g.matches(LikePattern, g.text(v), o.text)
    case NotLike => v != Null && !g.matches(LikePattern, g.text(v), o.text)
    case ILike => present && v != Null && g.matches(ILikePattern, g.text(v), o.text)
    case NotILike => v != Null && !g.matches(ILikePattern, g.text(v), o.text)
    case Regexp => present && v != Null && g.matches(RegexpPattern, g.text(v), o.text)
    case NotRegexp => v != Null && !g.matches(RegexpPattern, g.text(v), o.text)
    case UnknownOp => false
  }

  /** Plain columns are always there; only the tests for existence take a zero value for absence. */
  predicate ColumnPasses(g: Engine, p: FilterNode, v: Scalar, zero: Scalar)
    requires p.Predicate?
  {
    Passes(g, p, (p.op == Exists || p.op == NotExists) ==> v != zero, v)
  }

  lemma ListedIsInOwnList(v: Scalar, p: FilterNode, compiles: string -> bool)
    requires p.Predicate? && PredicateError(p, compiles).None? && (p.op == In || p.op == NotIn)
    requires v == Null || HasValueType(v, p.field.typ)
    ensures InOwnList(v, p.operand) <==> IsListed(v, p.operand)
  {
    hide Utf8Length;
  }

  lemma TestMeans(g: Engine, p: FilterNode, compiles: string -> bool, o: Observation, tracked: bool)
    requires p.Predicate? && PredicateError(p, compiles).None?
    requires o.value == Null || HasValueType(o.value, p.field.typ)
    ensures ObservationSatisfies(g, o, tracked, p.op, p.operand) <==>
            Passes(g, p, if tracked || p.op == Exists || p.op == NotExists then o.present else true, o.value)
  {
    if p.op == In || p.op == NotIn { ListedIsInOwnList(o.value, p, compiles); }
    hide Utf8Length, ValidField, InOwnList, IsListed;
  }

  // ----- which value is tested -----

  /** A validated test of a field that is not a trace scope. */
  ghost predicate IsTest(row: Row, signal: Signal, p: FilterNode, compiles: string -> bool)
  {
    p.Predicate? && PredicateError(p, compiles).None? && ScopeOf(signal, p.field).None? && WellTyped(row)
  }

  /** The test is of a key of a map column; a map gives its zero value for a key it lacks. */
  predicate TestsMap(g: Engine, row: Row, signal: Signal, p: FilterNode, column: string, zero: Scalar)
    requires p.Predicate?
  {
    var m := row.maps(column);
    Selects(g, row, signal, p) <==> Passes(g, p, p.field.name in m, if p.field.name in m then m[p.field.name] else zero)
  }

  predicate TestsColumn(g: Engine, row: Row, signal: Signal, p: FilterNode, column: string, zero: Scalar)
    requires p.Predicate?
  {
    Selects(g, row, signal, p) <==> ColumnPasses(g, p, row.columns(column), zero)
  }

  predicate IsRefused(signal: Signal, p: FilterNode) { Compile(signal, p).Failure? }

  lemma LocatedTest(g: Engine, row: Row, signal: Signal, p: FilterNode, compiles: string -> bool)
    requires IsTest(row, signal, p, compiles)
    ensures Locate(signal, p.field).Failure? ==> IsRefused(signal, p)
    ensures Locate(signal, p.field).Success? ==>
              match Locate(signal, p.field).value
              case MapKey(column, key, typ, _) => key == p.field.name ==> TestsMap(g, row, signal, p, column, Zero(typ))
              case Plain(column, typ) => TestsColumn(g, row, signal, p, column, Zero(typ))
              case Materialized(column, presence) =>
                Selects(g, row, signal, p) <==> Passes(g, p, row.columns(presence) == Boolean(true), row.columns(column))
              case JsonBody(path) =>
                var found := g.bodyPath(row.columns("body"), path);
                Selects(g, row, signal, p) <==> Passes(g, p, found.Some?, if found.Some? then Str(found.value) else Null)
  {
    hide Selects, Locate, PredicateError, ScopeOf, WellTyped, Passes, ObservationSatisfies;
    if Locate(signal, p.field).Success? {
      hide Observe;
      var loc := Locate(signal, p.field).value;
      PredicateSelects(g, row, signal, p, compiles);
      ObservedType(g, row, signal, p.field);
      TestMeans(g, p, compiles, Observe(g, row, loc), Tracked(loc));
      ObservedAt(g, row, p, loc);
    } else {
      RefusedThere(row, signal, p, compiles);
    }
  }

  lemma RefusedThere(row: Row, signal: Signal, p: FilterNode, compiles: string -> bool)
    requires IsTest(row, signal, p, compiles) && Locate(signal, p.field).Failure?
    ensures IsRefused(signal, p)
  {
    hide Locate, PredicateError, ScopeOf, WellTyped;
  }

  lemma ObservedAt(g: Engine, row: Row, p: FilterNode, loc: Location)
    requires p.Predicate?
    ensures var o := Observe(g, row, loc);
            var passes := Passes(g, p, if Tracked(loc) || p.op == Exists || p.op == NotExists then o.present else true, o.value);
            match loc
            case MapKey(column, key, typ, _) =>
              var m := row.maps(column);
              passes == Passes(g, p, key in m, if key in m then m[key] else Zero(typ))
            case Plain(column, typ) => passes == ColumnPasses(g, p, row.columns(column), Zero(typ))
            case Materialized(column, presence) =>
              passes == Passes(g, p, row.columns(presence) == Boolean(true), row.columns(column))
            case JsonBody(path) =>
              var found := g.bodyPath(row.columns("body"), path);
              passes == Passes(g, p, found.Some?, if found.Some? then Str(found.value) else Null)
  {
    hide Passes, Zero;
  }

  lemma NameIsThere(row: Row, signal: Signal, p: FilterNode, compiles: string -> bool)
    requires IsTest(row, signal, p, compiles)
    ensures ValidField(p.field)
  {
  }

  /** Log fields outside the log context. */
  lemma LogFields(g: Engine, row: Row, p: FilterNode, compiles: string -> bool)
    requires IsTest(row, Logs, p, compiles)
    ensures p.field.context == Resource ==>
              if p.field.typ == StringType then TestsMap(g, row, Logs, p, "resources_string", Str("")) else IsRefused(Logs, p)
    ensures p.field.context == Attribute ==>
              match p.field.typ
              case StringType => TestsMap(g, row, Logs, p, "attributes_string", Str(""))
              case NumberType => TestsMap(g, row, Logs, p, "attributes_number", Num(Finite(0.0)))
              case BoolType => TestsMap(g, row, Logs, p, "attributes_bool", Boolean(false))
    ensures p.field.context == Scope ==>
              if p.field.typ != StringType then IsRefused(Logs, p)
              else if p.field.name in {"name", "scope.name", "scope_name"} then TestsColumn(g, row, Logs, p, "scope_name", Str(""))
              else if p.field.name in {"version", "scope.version", "scope_version"} then TestsColumn(g, row, Logs, p, "scope_version", Str(""))
              else TestsMap(g, row, Logs, p, "scope_string", Str(""))
    ensures p.field.context in {Span, Metric, Label} ==> IsRefused(Logs, p)
  {
    hide PredicateError, WellTyped, ScopeOf, TestsMap, TestsColumn, IsRefused, Locate, ValidField;
    NameIsThere(row, Logs, p, compiles);
    LocatedTest(g, row, Logs, p, compiles);
    LogFieldsAreAt(p.field);
  }

  lemma LogFieldsAreAt(f: FieldRef)
    requires ValidField(f)
    ensures f.context == Resource ==>
              if f.typ == StringType then Locate(Logs, f) == Success(MapKey("resources_string", f.name, StringType, false))
              else Locate(Logs, f).Failure?
    ensures f.context == Attribute ==>
              match f.typ
              case StringType => Locate(Logs, f) == Success(MapKey("attributes_string", f.name, StringType, false))
              case NumberType => Locate(Logs, f) == Success(MapKey("attributes_number", f.name, NumberType, true))
              case BoolType => Locate(Logs, f) == Success(MapKey("attributes_bool", f.name, BoolType, false))
    ensures f.context == Scope ==>
              if f.typ != StringType then Locate(Logs, f).Failure?
              else if f.name in {"name", "scope.name", "scope_name"} then Locate(Logs, f) == Success(Plain("scope_name", StringType))
              else if f.name in {"version", "scope.version", "scope_version"} then
                Locate(Logs, f) == Success(Plain("scope_version", StringType))
              else Locate(Logs, f) == Success(MapKey("scope_string", f.name, StringType, false))
    ensures f.context in {Span, Metric, Label} ==> Locate(Logs, f).Failure?
  {
    hide ValidField, LogIntrinsic;
  }

  /** The body of a log, and paths into it. */
  lemma BodyFields(g: Engine, row: Row, p: FilterNode, compiles: string -> bool)
    requires IsTest(row, Logs, p, compiles) && p.field.context == Body
    ensures p.field.typ != StringType ==> IsRefused(Logs, p)
    ensures p.field.typ == StringType && p.field.name == "body" ==> TestsColumn(g, row, Logs, p, "body", Str(""))
    ensures p.field.typ == StringType && p.field.name != "body" ==>
              var path := if |p.field.name| > 0 && p.field.name[0] == '$' then p.field.name else "$." + p.field.name;
              var found := g.bodyPath(row.columns("body"), path);
              Selects(g, row, Logs, p) <==> Passes(g, p, found.Some?, if found.Some? then Str(found.value) else Null)
  {
    NameIsThere(row, Logs, p, compiles);
    LocatedTest(g, row, Logs, p, compiles);
    hide PredicateError, WellTyped, ScopeOf, TestsMap, TestsColumn, IsRefused, ValidField, LogIntrinsic, Selects, Passes;
  }

  /** Columns of the log table, by type. */
  lemma LogColumns(g: Engine, row: Row, p: FilterNode, compiles: string -> bool)
    requires IsTest(row, Logs, p, compiles) && p.field.context == Log
    ensures var (name, typ) := (p.field.name, p.field.typ);
            if typ == NumberType && name in {"timestamp", "observed_timestamp", "trace_flags", "severity_number"} then
              TestsColumn(g, row, Logs, p, name, Num(Finite(0.0)))
            else if typ == StringType
                    && name in {"id", "trace_id", "span_id", "severity_text", "body", "scope_name", "scope_version"} then
              TestsColumn(g, row, Logs, p, name, Str(""))
            else IsRefused(Logs, p)
  {
    hide PredicateError, WellTyped, ScopeOf, TestsMap, TestsColumn, IsRefused, Locate, ValidField;
    NameIsThere(row, Logs, p, compiles);
    LocatedTest(g, row, Logs, p, compiles);
    LogColumnsAreAt(p.field);
  }

  lemma LogColumnsAreAt(f: FieldRef)
    requires ValidField(f) && f.context == Log
    ensures if f.typ == NumberType && f.name in {"timestamp", "observed_timestamp", "trace_flags", "severity_number"} then
              Locate(Logs, f) == Success(Plain(f.name, NumberType))
            else if f.typ == StringType
                    && f.name in {"id", "trace_id", "span_id", "severity_text", "body", "scope_name", "scope_version"} then
              Locate(Logs, f) == Success(Plain(f.name, StringType))
            else Locate(Logs, f).Failure?
  {
    hide ValidField;
  }

  /** A column with a separate one that tells whether it is there. */
  predicate TestsPresence(g: Engine, row: Row, signal: Signal, p: FilterNode, column: string, presence: string)
    requires p.Predicate?
  {
    Selects(g, row, signal, p) <==> Passes(g, p, row.columns(presence) == Boolean(true), row.columns(column))
  }

  /** Resource fields and attributes of spans; some have columns of their own. */
  lemma TraceFields(g: Engine, row: Row, p: FilterNode, compiles: string -> bool)
    requires IsTest(row, Traces, p, compiles)
    ensures p.field.context == Resource ==>
              if p.field.typ != StringType then IsRefused(Traces, p)
              else if p.field.name == "service.name" then TestsPresence(g, row, Traces, p, "service_name", "service_name_present")
              else TestsMap(g, row, Traces, p, "resources_string", Str(""))
    ensures p.field.context == Attribute && p.field.typ == NumberType ==> TestsMap(g, row, Traces, p, "attributes_number", Num(Finite(0.0)))
    ensures p.field.context == Attribute && p.field.typ == BoolType ==> TestsMap(g, row, Traces, p, "attributes_bool", Boolean(false))
    ensures p.field.context == Attribute && p.field.typ == StringType ==>
              && (p.field.name == "http.route" ==> TestsPresence(g, row, Traces, p, "http_route", "http_route_present"))
              && (p.field.name == "messaging.system" ==> TestsPresence(g, row, Traces, p, "messaging_system", "messaging_system_present"))
              && (p.field.name == "messaging.operation" ==>
                    TestsPresence(g, row, Traces, p, "messaging_operation", "messaging_operation_present"))
              && (p.field.name == "db.system" ==> TestsPresence(g, row, Traces, p, "db_system", "db_system_present"))
              && (p.field.name == "rpc.system" ==> TestsPresence(g, row, Traces, p, "rpc_system", "rpc_system_present"))
              && (p.field.name == "rpc.service" ==> TestsPresence(g, row, Traces, p, "rpc_service", "rpc_service_present"))
              && (p.field.name == "rpc.method" ==> TestsPresence(g, row, Traces, p, "rpc_method", "rpc_method_present"))
              && (p.field.name == "peer.service" ==> TestsPresence(g, row, Traces, p, "peer_service", "peer_service_present"))
              && (!HasOwnColumn(p.field.name) ==> TestsMap(g, row, Traces, p, "attributes_string", Str("")))
    ensures p.field.context in {Log, Body, Scope, Metric, Label} ==> IsRefused(Traces, p)
  {
    hide PredicateError, WellTyped, ScopeOf, TestsMap, TestsPresence, IsRefused, Locate, ValidField;
    NameIsThere(row, Traces, p, compiles);
    LocatedPresence(g, row, p, compiles);
    LocatedTest(g, row, Traces, p, compiles);
    TraceFieldsAreAt(p.field);
    if p.field.context == Attribute && p.field.typ == StringType { OwnColumns(p.field); }
  }

  predicate HasOwnColumn(name: string)
  {
    name in {"http.route", "messaging.system", "messaging.operation", "db.system", "rpc.system", "rpc.service", "rpc.method", "peer.service"}
  }

  lemma LocatedPresence(g: Engine, row: Row, p: FilterNode, compiles: string -> bool)
    requires IsTest(row, Traces, p, compiles)
    ensures match Locate(Traces, p.field)
            case Success(Materialized(column, presence)) => TestsPresence(g, row, Traces, p, column, presence)
            case _ => true
  {
    hide Locate, Selects, Passes, TestsMap, TestsColumn;
    LocatedTest(g, row, Traces, p, compiles);
  }

  lemma OwnColumns(f: FieldRef)
    requires ValidField(f) && f.context == Attribute && f.typ == StringType
    ensures f.name == "http.route" ==> Locate(Traces, f) == Success(Materialized("http_route", "http_route_present"))
    ensures f.name == "messaging.system" ==> Locate(Traces, f) == Success(Materialized("messaging_system", "messaging_system_present"))
    ensures f.name == "messaging.operation" ==>
              Locate(Traces, f) == Success(Materialized("messaging_operation", "messaging_operation_present"))
    ensures f.name == "db.system" ==> Locate(Traces, f) == Success(Materialized("db_system", "db_system_present"))
    ensures f.name == "rpc.system" ==> Locate(Traces, f) == Success(Materialized("rpc_system", "rpc_system_present"))
    ensures f.name == "rpc.service" ==> Locate(Traces, f) == Success(Materialized("rpc_service", "rpc_service_present"))
    ensures f.name == "rpc.method" ==> Locate(Traces, f) == Success(Materialized("rpc_method", "rpc_method_present"))
    ensures f.name == "peer.service" ==> Locate(Traces, f) == Success(Materialized("peer_service", "peer_service_present"))
  {
    hide ValidField, TraceIntrinsic;
    assert "http_route" + "_present" == "http_route_present" && "db_system" + "_present" == "db_system_present";
    assert "messaging_system" + "_present" == "messaging_system_present";
    assert "messaging_operation" + "_present" == "messaging_operation_present";
    assert "rpc_system" + "_present" == "rpc_system_present" && "rpc_service" + "_present" == "rpc_service_present";
    assert "rpc_method" + "_present" == "rpc_method_present" && "peer_service" + "_present" == "peer_service_present";
  }

  lemma TraceFieldsAreAt(f: FieldRef)
    requires ValidField(f)
    ensures f.context == Resource ==>
              if f.typ != StringType then Locate(Traces, f).Failure?
              else if f.name == "service.name" then Locate(Traces, f) == Success(Materialized("service_name", "service_name_present"))
              else Locate(Traces, f) == Success(MapKey("resources_string", f.name, StringType, false))
    ensures f.context == Attribute ==>
              match f.typ
              case StringType =>
                !HasOwnColumn(f.name) ==> Locate(Traces, f) == Success(MapKey("attributes_string", f.name, StringType, false))
              case NumberType => Locate(Traces, f) == Success(MapKey("attributes_number", f.name, NumberType, true))
              case BoolType => Locate(Traces, f) == Success(MapKey("attributes_bool", f.name, BoolType, false))
    ensures f.context in {Log, Body, Scope, Metric, Label} ==> Locate(Traces, f).Failure?
  {
    hide ValidField, TraceIntrinsic;
  }

  predicate IsSpanNumber(name: string) { name in {"timestamp", "flags", "kind", "duration_nano", "status_code"} }

  predicate IsSpanText(name: string)
  {
    name in {
      "trace_id", "span_id", "trace_state", "parent_span_id", "name", "kind_string", "status_message", "status_code_string",
      "response_status_code", "external_http_url", "http_url", "external_http_method", "http_method", "http_host", "db_name",
      "db_operation", "is_remote"
    }
  }

  /** Columns of the span table, by type. */
  lemma SpanColumns(g: Engine, row: Row, p: FilterNode, compiles: string -> bool)
    requires IsTest(row, Traces, p, compiles) && p.field.context == Span
    ensures var (name, typ) := (p.field.name, p.field.typ);
            if typ == NumberType && IsSpanNumber(name) then TestsColumn(g, row, Traces, p, name, Num(Finite(0.0)))
            else if typ == StringType && IsSpanText(name) then TestsColumn(g, row, Traces, p, name, Str(""))
            else if typ == BoolType && name == "has_error" then TestsColumn(g, row, Traces, p, name, Boolean(false))
            else IsRefused(Traces, p)
  {
    hide PredicateError, WellTyped, ScopeOf, TestsMap, TestsColumn, IsRefused, Locate, ValidField, IsSpanNumber, IsSpanText;
    NameIsThere(row, Traces, p, compiles);
    LocatedTest(g, row, Traces, p, compiles);
    SpanColumnsAreAt(p.field);
  }

  lemma SpanColumnsAreAt(f: FieldRef)
    requires ValidField(f) && f.context == Span
    ensures if f.typ == NumberType && IsSpanNumber(f.name) then Locate(Traces, f) == Success(Plain(f.name, NumberType))
            else if f.typ == StringType && IsSpanText(f.name) then Locate(Traces, f) == Success(Plain(f.name, StringType))
            else if f.typ == BoolType && f.name == "has_error" then Locate(Traces, f) == Success(Plain(f.name, BoolType))
            else Locate(Traces, f).Failure?
  {
    hide ValidField, MaterializedColumn, IsSpanText;
    SpanTexts(f.name);
  }

  lemma SpanTexts(name: string)
    ensures TraceIntrinsic(name) == Some(StringType) <==> IsSpanText(name)
    ensures TraceIntrinsic(name) == Some(NumberType) <==> IsSpanNumber(name)
    ensures TraceIntrinsic(name) == Some(BoolType) <==> name == "has_error"
  {
  }

  /** Fields of metric and meter series. Only metrics have attributes, resources and scopes. */
  lemma MetricFields(g: Engine, row: Row, signal: Signal, p: FilterNode, compiles: string -> bool)
    requires IsTest(row, signal, p, compiles) && (signal == Metrics || signal == Meter)
    ensures var typ := p.field.typ;
            match p.field.context
            case Label => if typ == StringType then TestsMap(g, row, signal, p, "labels", Str("")) else IsRefused(signal, p)
            case Attribute =>
              if typ == StringType && signal == Metrics then TestsMap(g, row, signal, p, "attrs", Str("")) else IsRefused(signal, p)
            case Resource =>
              if typ == StringType && signal == Metrics then TestsMap(g, row, signal, p, "resource_attrs", Str("")) else IsRefused(signal, p)
            case Scope =>
              if typ == StringType && signal == Metrics then TestsMap(g, row, signal, p, "scope_attrs", Str("")) else IsRefused(signal, p)
            case Metric =>
              if typ == StringType && p.field.name in {"metric_name", "temporality", "type", "unit", "description"} then
                TestsColumn(g, row, signal, p, p.field.name, Str(""))
              else IsRefused(signal, p)
            case _ => IsRefused(signal, p)
  {
    NameIsThere(row, signal, p, compiles);
    LocatedTest(g, row, signal, p, compiles);
    hide PredicateError, WellTyped, ScopeOf, TestsMap, TestsColumn, IsRefused, ValidField;
  }
}
