/** Where the value of a semantic field is stored, and the SQL that reads it. */
module FieldCatalog {
  import opened Fields
  import opened Filters
  import opened FilterSql
  import opened Results

  datatype ResolveError = BadName | BadType | UnsupportedContext | UnsupportedName

  /** A key of a map column (metric labels are read like one), a column with a separate
      presence column, a plain column, or a path into the JSON body. */
  datatype Location =
    | MapKey(column: string, key: string, typ: ValueType, cast: bool)
    | Materialized(column: string, presence: string)
    | Plain(column: string, typ: ValueType)
    | JsonBody(path: string)

  type Located = Result<Location, ResolveError>

  function Zero(typ: ValueType): Scalar
  {
    match typ
    case StringType => Str("")
    case NumberType => Num(Finite(0.0))
    case BoolType => Boolean(false)
  }

  function MaterializedColumn(name: string): Option<string>
  {
    if name == "http.route" then Some("http_route")
    else if name == "messaging.system" then Some("messaging_system")
    else if name == "messaging.operation" then Some("messaging_operation")
    else if name == "db.system" then Some("db_system")
    else if name == "rpc.system" then Some("rpc_system")
    else if name == "rpc.service" then Some("rpc_service")
    else if name == "rpc.method" then Some("rpc_method")
    else if name == "peer.service" then Some("peer_service")
    else None
  }

  function LogIntrinsic(name: string): Option<ValueType>
  {
    if name == "timestamp" || name == "observed_timestamp" || name == "trace_flags" || name == "severity_number" then
      Some(NumberType)
    else if name == "id" || name == "trace_id" || name == "span_id" || name == "severity_text"
            || name == "body" || name == "scope_name" || name == "scope_version" then Some(StringType)
    else None
  }

  function TraceIntrinsic(name: string): Option<ValueType>
  {
    if name == "timestamp" || name == "flags" || name == "kind" || name == "duration_nano" || name == "status_code" then
      Some(NumberType)
    else if name == "has_error" then Some(BoolType)
    else if name == "trace_id" || name == "span_id" || name == "trace_state" || name == "parent_span_id"
            || name == "name" || name == "kind_string" || name == "status_message" || name == "status_code_string"
            || name == "response_status_code" || name == "external_http_url" || name == "http_url"
            || name == "external_http_method" || name == "http_method" || name == "http_host"
            || name == "db_name" || name == "db_operation" || name == "is_remote" then Some(StringType)
    else None
  }

  function StringMap(column: string, field: FieldRef): Located
  {
    if field.typ != StringType then Failure(BadType) else Success(MapKey(column, field.name, StringType, false))
  }

  function AttributeMap(field: FieldRef): Located
  {
    match field.typ
    case StringType => Success(MapKey("attributes_string", field.name, StringType, false))
    case NumberType => Success(MapKey("attributes_number", field.name, NumberType, true))
    case BoolType => Success(MapKey("attributes_bool", field.name, BoolType, false))
  }

  function Intrinsic(field: FieldRef, typ: Option<ValueType>): Located
  {
    if typ.None? then Failure(UnsupportedName)
    else if typ.value != field.typ then Failure(BadType)
    else Success(Plain(field.name, field.typ))
  }

  function LocateLog(field: FieldRef): Located
  {
    match field.context
    case Resource => StringMap("resources_string", field)
    case Attribute => AttributeMap(field)
    case Scope =>
      if field.typ != StringType then Failure(BadType)
      else if field.name == "name" || field.name == "scope.name" || field.name == "scope_name" then
        Success(Plain("scope_name", field.typ))
      else if field.name == "version" || field.name == "scope.version" || field.name == "scope_version" then
        Success(Plain("scope_version", field.typ))
      else StringMap("scope_string", field)
    case Body =>
      if field.typ != StringType then Failure(BadType)
      else if field.name == "body" then Success(Plain("body", field.typ))
      else Success(JsonBody(if "$" <= field.name then field.name else "$." + field.name))
    case Log => Intrinsic(field, LogIntrinsic(field.name))
    case _ => Failure(UnsupportedContext)
  }

  function LocateTrace(field: FieldRef): Located
  {
    if field.context == Resource && field.name == "service.name" && field.typ == StringType then
      Success(Materialized("service_name", "service_name_present"))
    else if field.context == Attribute && field.typ == StringType && MaterializedColumn(field.name).Some? then
      var column := MaterializedColumn(field.name).value;
      Success(Materialized(column, column + "_present"))
    else match field.context
      case Resource => StringMap("resources_string", field)
      case Attribute => AttributeMap(field)
      case Span => Intrinsic(field, TraceIntrinsic(field.name))
      case _ => Failure(UnsupportedContext)
  }

  predicate IsMetricColumn(name: string)
  {
    name == "metric_name" || name == "temporality" || name == "type" || name == "unit" || name == "description"
  }

  function LocateMetric(signal: Signal, field: FieldRef): Located
  {
    match field.context
    case Label => StringMap("labels", field)
    case Attribute => if signal != Metrics || field.typ != StringType then Failure(UnsupportedContext) else StringMap("attrs", field)
    case Resource => if signal != Metrics || field.typ != StringType then Failure(UnsupportedContext) else StringMap("resource_attrs", field)
    case Scope => if signal != Metrics || field.typ != StringType then Failure(UnsupportedContext) else StringMap("scope_attrs", field)
    case Metric =>
      if field.typ != StringType then Failure(BadType)
      else if IsMetricColumn(field.name) then Success(Plain(field.name, field.typ))
      else Failure(UnsupportedName)
    case _ => Failure(UnsupportedContext)
  }

  function Locate(signal: Signal, field: FieldRef): Located
  {
    if !ValidField(field) then Failure(BadName)
    else match signal
      case Logs => LocateLog(field)
      case Traces => LocateTrace(field)
      case _ => LocateMetric(signal, field)
  }

  // ----- rendering -----

  datatype ResolvedField = ResolvedField(
    sql: Expr,
    args: Args,
    existsSql: Sql,
    existsArgs: Args,
    castComparison: bool,
    requiresExistence: bool)

  function Render(loc: Location): ResolvedField
  {
    match loc
    case MapKey(column, key, typ, cast) =>
      ResolvedField(MapAt(column, Zero(typ), Slot), [Str(key)], MapHas(column, Slot), [Str(key)], cast, true)
    case Materialized(column, presence) => ResolvedField(Column(column), [], Flag(presence), [], false, true)
    case Plain(column, typ) =>
      ResolvedField(Column(column), [], Compare(Column(column), Ne, Literal(Zero(typ))), [], false, false)
    case JsonBody(path) =>
      ResolvedField(BodyPath(Slot), [Str(path)], NotNull(BodyPath(Slot)), [Str(path)], false, true)
  }

  // ----- what a row says about a field -----

  /** Whether a row has the field, and the value read for it: of a missing map key the zero
      value of the map, of a missing body path null. */
  datatype Observation = Observation(present: bool, value: Scalar)

  function Observe(g: Engine, row: Row, loc: Location): Observation
  {
    match loc
    case MapKey(column, key, typ, _) => Observation(key in row.maps(column), Lookup(row.maps(column), key, Zero(typ)))
    case Materialized(column, presence) => Observation(row.columns(presence) == Boolean(true), row.columns(column))
    case Plain(column, typ) => Observation(row.columns(column) != Zero(typ), row.columns(column))
    case JsonBody(path) =>
      var found := g.bodyPath(row.columns("body"), path);
      Observation(found.Some?, if found.None? then Null else Str(found.value))
  }

  /** Plain columns have no way to be absent; for them presence is having a non-zero value. */
  predicate Tracked(loc: Location) { !loc.Plain? }

  predicate HasValueType(v: Scalar, typ: ValueType)
  {
    match typ case StringType => v.Str? case NumberType => v.Num? case BoolType => v.Boolean?
  }

  /** The stored values have the types of their columns; only body paths can be null. */
  ghost predicate WellTyped(row: Row)
  {
    && (forall column, key, typ, cast, signal, field ::
          Locate(signal, field) == Success(MapKey(column, key, typ, cast)) && key in row.maps(column) ==>
            HasValueType(row.maps(column)[key], typ))
    && (forall column, typ, signal, field ::
          Locate(signal, field) == Success(Plain(column, typ)) ==> HasValueType(row.columns(column), typ))
    && (forall column, presence, signal, field ::
          Locate(signal, field) == Success(Materialized(column, presence)) ==> row.columns(column).Str?)
  }

  lemma LocatedType(signal: Signal, field: FieldRef)
    ensures match Locate(signal, field)
            case Success(MapKey(_, _, typ, _)) => typ == field.typ
            case Success(Plain(_, typ)) => typ == field.typ
            case Success(_) => field.typ == StringType
            case Failure(_) => true
  {
  }

  /** A value read for a field has the field's type, or is null. */
  lemma ObservedType(g: Engine, row: Row, signal: Signal, field: FieldRef)
    requires WellTyped(row) && Locate(signal, field).Success?
    ensures var o := Observe(g, row, Locate(signal, field).value);
            && (HasValueType(o.value, field.typ) || o.value == Null)
            && (o.value == Null ==> Locate(signal, field).value.JsonBody? && !o.present)
  {
    hide Locate;
    LocatedType(signal, field);
  }

  /** The rendered SQL reads what the row says, and consumes exactly the rendered arguments. */
  lemma RenderedReads(g: Engine, row: Row, loc: Location, rest: Args)
    ensures EvalExpr(g, row, Render(loc).sql, Render(loc).args + rest) == Some((Observe(g, row, loc).value, rest))
    requires loc.Plain? ==> row.columns(loc.column) != Null
    ensures EvalSql(g, row, Render(loc).existsSql, Render(loc).existsArgs + rest) ==
            Some((TruthOf(Observe(g, row, loc).present), rest))
  {
    match loc
    case MapKey(_, key, _, _) => OneArgument(Str(key), rest);
    case JsonBody(path) => OneArgument(Str(path), rest);
    case Materialized(_, _) => assert [] + rest == rest;
    case Plain(_, typ) => assert [] + rest == rest;
  }

  lemma OneArgument(a: Scalar, rest: Args)
    ensures [a] + rest != [] && ([a] + rest)[0] == a && ([a] + rest)[1..] == rest
  {
  }
}
