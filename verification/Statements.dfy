/** Statements over logs and traces: raw rows, trace summaries and aggregates. In each, text
    and arguments are put together separately. */
module Statements {
  import opened Fields
  import opened Filters
  import opened FilterSql
  import opened FieldCatalog
  import opened FilterCompiler
  import opened SqlText
  import opened StatementClauses
  import opened Results

  datatype Pagination = Pagination(limit: nat, offset: nat)

  datatype Statement = Statement(sql: Fragment, args: Args, pagination: Option<Pagination>, resultLimit: nat)

  /** The statement's text is the given one, and its arguments are those its placeholders are
      meant to receive. */
  predicate Delivers(s: Statement, text: Fragment)
  {
    s.sql == text && Lined(Clause(s.sql, s.args))
  }

  function Table(signal: Signal): string { if signal == Logs then "siginsight_logs.logs" else "siginsight_traces.spans" }

  datatype FieldLists = FieldLists(selects: seq<Fragment>, groups: seq<Fragment>, selectArgs: Args, groupArgs: Args)

  // ----- raw rows -----

  function DefaultFields(signal: Signal): seq<FieldRef>
  {
    if signal == Logs then
      [FieldRef("timestamp", Log, NumberType), FieldRef("id", Log, StringType), FieldRef("severity_text", Log, StringType),
       FieldRef("body", Body, StringType), FieldRef("trace_id", Log, StringType), FieldRef("span_id", Log, StringType)]
    else
      [FieldRef("timestamp", Span, NumberType), FieldRef("trace_id", Span, StringType), FieldRef("span_id", Span, StringType),
       FieldRef("name", Span, StringType), FieldRef("duration_nano", Span, NumberType), FieldRef("service.name", Resource, StringType)]
  }

  function WithField(fields: seq<FieldRef>, field: FieldRef): seq<FieldRef>
  {
    if exists f :: f in fields && f.name == field.name then fields else fields + [field]
  }

  function WithTraceIdentity(fields: seq<FieldRef>): seq<FieldRef>
  {
    WithField(WithField(WithField(fields, FieldRef("timestamp", Span, NumberType)), FieldRef("trace_id", Span, StringType)),
              FieldRef("span_id", Span, StringType))
  }

  function RawFields(signal: Signal, select: seq<FieldRef>): seq<FieldRef>
  {
    var fields := if select == [] then DefaultFields(signal) else select;
    if signal == Traces then WithTraceIdentity(fields) else fields
  }

  const DETAIL_COUNT: nat := 9

  /** Columns a log row carries for its detail view; none has a placeholder. */
  function DetailName(k: nat): string
  {
    match k
    case 0 => "severity_number"
    case 1 => "trace_flags"
    case 2 => "attributes_string"
    case 3 => "attributes_number"
    case 4 => "attributes_bool"
    case 5 => "resources_string"
    case 6 => "scope_name"
    case 7 => "scope_version"
    case _ => "scope_string"
  }

  function Detail(k: nat, first: nat): Fragment { [Word(Name(DetailName(k))), Word(Numbered("field_", first + k))] }

  /** Columns with the first `n` details behind them. */
  function WithDetails(columns: seq<Fragment>, n: nat): seq<Fragment>
  {
    if n == 0 then columns else WithDetails(columns, n - 1) + [Detail(n - 1, |columns|)]
  }

  lemma {:induction false} WantsDetails(columns: seq<Fragment>, n: nat)
    ensures WantsOfAll(WithDetails(columns, n)) == WantsOfAll(columns)
    ensures AllAligned(columns) ==> AllAligned(WithDetails(columns, n))
  {
    hide Wants, Aligned, AllAligned, DetailName;
    if n > 0 {
      WantsDetails(columns, n - 1);
      var name, number := Name(DetailName(n - 1)), Numbered("field_", |columns| + n - 1);
      WantsWord(name);
      WantsWord(number);
      WantsAppend([Word(name)], [Word(number)]);
      assert Detail(n - 1, |columns|) == [Word(name)] + [Word(number)];
      AlignedParts(WithDetails(columns, n - 1), Detail(n - 1, |columns|));
    }
  }

  function AfterText(after: RawCursor): Fragment
  {
    Bind(AfterTimestamp, IntArg(after.timestampNS)) + Bind(AtTimestamp, IntArg(after.timestampNS)) + Bind(AfterId, Str(after.id))
  }

  lemma WantsAfter(after: RawCursor)
    ensures Lined(Clause(AfterText(after), [IntArg(after.timestampNS), IntArg(after.timestampNS), Str(after.id)]))
  {
    var t := IntArg(after.timestampNS);
    LinedPair(AfterTimestamp, t, AtTimestamp, t);
    WantsBind(AfterId, Str(after.id));
    WantsAppend(Bind(AfterTimestamp, t) + Bind(AtTimestamp, t), Bind(AfterId, Str(after.id)));
    assert [t, t] + [Str(after.id)] == [t, t, Str(after.id)];
  }

  function RawWhere(where: Fragment, after: Option<RawCursor>): Fragment
  {
    if after.None? then where else [Word(Open)] + where + AfterText(after.value)
  }

  predicate HasTieBreaker(signal: Signal, orders: seq<Order>)
  {
    exists o :: o in orders && o.target == ByField
      && (if signal == Traces then o.field.context == Span && o.field.name == "span_id"
          else o.field.context == Log && o.field.name == "id")
  }

  function TieBreaker(signal: Signal, orders: seq<Order>): Fragment
  {
    if orders == [] || HasTieBreaker(signal, orders) then []
    else [Word(Sorted(if signal == Traces then "span_id" else "id", orders[|orders| - 1].direction))]
  }

  function DefaultRawOrder(signal: Signal, after: bool): Fragment
  {
    [Word(Fixed(if after then "timestamp ASC, id ASC"
                else if signal == Logs then "timestamp DESC, id DESC" else "timestamp DESC, span_id DESC"))]
  }

  function LimitOf(common: Common): nat { if common.limit == 0 then 100 else common.limit }

  /** One row more than the limit, to see whether there is another page. */
  function PageText(common: Common): Fragment
  {
    if common.offset == 0 then Bind(Limit, IntArg(LimitOf(common) + 1))
    else Bind(Limit, IntArg(LimitOf(common) + 1)) + Bind(Offset, IntArg(common.offset))
  }

  function PageArgs(common: Common): Args
  {
    if common.offset == 0 then [IntArg(LimitOf(common) + 1)] else [IntArg(LimitOf(common) + 1), IntArg(common.offset)]
  }

  lemma WantsPage(common: Common)
    ensures Lined(Clause(PageText(common), PageArgs(common)))
  {
    WantsBind(Limit, IntArg(LimitOf(common) + 1));
    LinedPair(Limit, IntArg(LimitOf(common) + 1), Offset, IntArg(common.offset));
  }

  /** One row more than the limit is asked for, behind the offset if there is one. */
  lemma PageEnds(before: Fragment, common: Common)
    ensures var limit := if common.limit == 0 then 100 else common.limit;
            && limit == LimitOf(common)
            && EndsWith(before + PageText(common),
                        [Word(Limit), Placeholder(IntArg(limit + 1))]
                        + if common.offset == 0 then [] else [Word(Offset), Placeholder(IntArg(common.offset))])
  {
    EndsWithLast(before, PageText(common));
  }

  function RawText(signal: Signal, plan: Plan, common: Common): Option<Fragment>
  {
    var resolved := ResolveAll(signal, RawFields(signal, common.select));
    var where := CompileWhere(signal, common.filter, plan);
    var order := OrderText(signal, common.order, false, DefaultRawOrder(signal, common.after.Some?));
    if common.cursor != "" || (common.after.Some? && signal != Logs) || resolved.None? || where.Failure? || order.None? then None
    else
      var columns := Columns(resolved.value, "field_");
      var selects := if signal == Logs && common.select == [] then WithDetails(columns, DETAIL_COUNT) else columns;
      Some([Word(Select)] + Joined(selects) + [Word(From(Table(signal))), Word(Where)] + RawWhere(where.value.sql, common.after)
           + [Word(OrderBy)] + (order.value + TieBreaker(signal, common.order)) + PageText(common))
  }

  method CompileRaw(signal: Signal, plan: Plan, common: Common) returns (r: Result<Statement, StatementError>)
    ensures r.Success? <==> RawText(signal, plan, common).Some?
    ensures r.Success? ==> Delivers(r.value, RawText(signal, plan, common).value)
    ensures r.Success? ==>
              var limit := if common.limit == 0 then 100 else common.limit;
              && r.value.pagination == Some(Pagination(limit, common.offset)) && r.value.resultLimit == 0
              && EndsWith(r.value.sql, [Word(Limit), Placeholder(IntArg(limit + 1))]
                                       + if common.offset == 0 then [] else [Word(Offset), Placeholder(IntArg(common.offset))])
  {
    hide Wants, Aligned, CompileWhere, ResolveAll, Columns, WithDetails, OrderText, PageText, PageArgs, RawFields, TieBreaker,
      AfterText, DefaultRawOrder, Table, EndsWith, LimitOf;
    if common.cursor != "" {
      return Failure(UnsupportedCursor);
    }
    if common.after.Some? && signal != Logs {
      return Failure(UnsupportedCursor);
    }
    var fields := RawFields(signal, common.select);
    var columns: Result<FieldLists, StatementError> := CompileColumns(signal, fields, "field_");
    if columns.Failure? {
      return Failure(columns.error);
    }
    var selects, args := columns.value.selects, columns.value.selectArgs;
    if signal == Logs && |common.select| == 0 {
      selects := AddDetails(selects);
    }
    var compiled: Result<Clause, StatementError> := CompileWhere(signal, common.filter, plan);
    if compiled.Failure? {
      return Failure(compiled.error);
    }
    args := args + compiled.value.args;
    var where := compiled.value.sql;
    if common.after.Some? {
      var after := common.after.value;
      where := [Word(Open)] + where + AfterText(after);
      args := args + [IntArg(after.timestampNS), IntArg(after.timestampNS), Str(after.id)];
    }
    LinedDefaultOrder(signal, common.after.Some?);
    var order: Result<Clause, StatementError> := CompileOrder(signal, common.order, false, DefaultRawOrder(signal, common.after.Some?));
    if order.Failure? {
      return Failure(order.error);
    }
    args := args + order.value.args;
    args := args + PageArgs(common);
    var sql := [Word(Select)] + Joined(selects) + [Word(From(Table(signal))), Word(Where)] + where
      + [Word(OrderBy)] + (order.value.sql + TieBreaker(signal, common.order)) + PageText(common);
    RawLines(selects, columns.value.selectArgs, compiled.value, common, signal, order.value);
    PageEnds([Word(Select)] + Joined(selects) + [Word(From(Table(signal))), Word(Where)] + where
                 + [Word(OrderBy)] + (order.value.sql + TieBreaker(signal, common.order)), common);
    r := Success(Statement(sql, args, Some(Pagination(LimitOf(common), common.offset)), 0));
  }

  /** Select list and grouping list of some fields, and the arguments that each of them needs. */
  method CompileColumns(signal: Signal, fields: seq<FieldRef>, prefix: string)
    returns (r: Result<FieldLists, StatementError>)
    ensures r.Success? <==> ResolveAll(signal, fields).Some?
    ensures r.Success? ==>
      && r.value.selects == Columns(ResolveAll(signal, fields).value, prefix)
      && r.value.groups == Reads(ResolveAll(signal, fields).value)
      && r.value.selectArgs == WantsOfAll(r.value.selects) && AllAligned(r.value.selects)
      && r.value.groupArgs == WantsOfAll(r.value.groups) && AllAligned(r.value.groups)
  {
    NothingListed(signal, prefix);
    hide Locate, Render, WantsOfAll, AllAligned, ColumnItem, Read, ResolveAll, Columns, Reads, ArgsOf;
    var selects: seq<Fragment>, groups: seq<Fragment>, selectArgs: Args, groupArgs: Args := [], [], [], [];
    for i := 0 to |fields|
      invariant ResolveAll(signal, fields[..i]).Some?
      invariant selects == Columns(ResolveAll(signal, fields[..i]).value, prefix)
      invariant groups == Reads(ResolveAll(signal, fields[..i]).value)
      invariant selectArgs == groupArgs == ArgsOf(ResolveAll(signal, fields[..i]).value)
    {
      var loc: Located := Locate(signal, fields[i]);
      if loc.Failure? {
        ResolveAllFails(signal, fields, i);
        return Failure(UnresolvedField);
      }
      var field := Render(loc.value);
      ResolveNext(signal, fields, i);
      ListsGrow(ResolveAll(signal, fields[..i]).value, field, prefix);
      selects, selectArgs := selects + [ColumnItem(field, prefix, i)], selectArgs + field.args;
      groups, groupArgs := groups + [Read(field)], groupArgs + field.args;
    }
    assert fields[..|fields|] == fields;
    WantsFields(signal, fields, prefix);
    r := Success(FieldLists(selects, groups, selectArgs, groupArgs));
  }

  lemma NothingListed(signal: Signal, prefix: string)
    ensures ResolveAll(signal, []) == Some([]) && Columns([], prefix) == [] && Reads([]) == [] && ArgsOf([]) == []
  {
  }

  method AddDetails(columns: seq<Fragment>) returns (selects: seq<Fragment>)
    ensures selects == WithDetails(columns, DETAIL_COUNT)
    ensures WantsOfAll(selects) == WantsOfAll(columns) && (AllAligned(columns) ==> AllAligned(selects))
  {
    selects := columns;
    for k := 0 to DETAIL_COUNT
      invariant selects == WithDetails(columns, k)
    {
      selects := selects + [Detail(k, |columns|)];
    }
    WantsDetails(columns, DETAIL_COUNT);
  }

  lemma LinedDefaultOrder(signal: Signal, after: bool)
    ensures Lined(Clause(DefaultRawOrder(signal, after), []))
  {
    WantsWord(DefaultRawOrder(signal, after)[0].phrase);
  }

  lemma LinedWords(a: Phrase, b: Phrase)
    ensures Lined(Clause([Word(a)], [])) && Lined(Clause([Word(a), Word(b)], []))
  {
    WantsWord(a);
    WantsWord(b);
    WantsAppend([Word(a)], [Word(b)]);
    assert [Word(a)] + [Word(b)] == [Word(a), Word(b)];
  }

  /** Five clauses between fixed words, in text order. */
  lemma LinedSelect(selects: seq<Fragment>, table: Phrase, where: Clause, order: Clause, page: Clause)
    requires AllAligned(selects) && Lined(where) && Lined(order) && Lined(page)
    ensures Lined(Clause([Word(Select)] + Joined(selects) + [Word(table), Word(Where)] + where.sql + [Word(OrderBy)] + order.sql + page.sql,
                         WantsOfAll(selects) + where.args + order.args + page.args))
  {
    hide Wants, Aligned;
    WantsJoined(selects);
    LinedWords(Select, Select);
    LinedWords(table, Where);
    LinedWords(OrderBy, OrderBy);
    var list := Clause(Joined(selects), WantsOfAll(selects));
    var a := Clause([Word(Select)] + list.sql, list.args);
    assert [] + list.args == list.args;
    LinedAppend(Clause([Word(Select)], []), list);
    assert a.args + [] == a.args;
    LinedAppend(a, Clause([Word(table), Word(Where)], []));
    var b := Clause(a.sql + [Word(table), Word(Where)], a.args);
    LinedAppend(b, where);
    var c := Clause(b.sql + where.sql, b.args + where.args);
    assert c.args + [] == c.args;
    LinedAppend(c, Clause([Word(OrderBy)], []));
    var d := Clause(c.sql + [Word(OrderBy)], c.args);
    LinedAppend(d, order);
    LinedAppend(Clause(d.sql + order.sql, d.args + order.args), page);
  }

  lemma RawLines(selects: seq<Fragment>, selectArgs: Args, where: Clause, common: Common, signal: Signal, order: Clause)
    requires AllAligned(selects) && selectArgs == WantsOfAll(selects) && Lined(where) && Lined(order)
    ensures var after := common.after;
            var afterArgs := if after.None? then [] else [IntArg(after.value.timestampNS), IntArg(after.value.timestampNS), Str(after.value.id)];
            Lined(Clause([Word(Select)] + Joined(selects) + [Word(From(Table(signal))), Word(Where)] + RawWhere(where.sql, after)
                         + [Word(OrderBy)] + (order.sql + TieBreaker(signal, common.order)) + PageText(common),
                         selectArgs + where.args + afterArgs + order.args + PageArgs(common)))
  {
    hide Wants, Aligned, AfterText, PageText, PageArgs, Table;
    var after := common.after;
    var afterArgs := if after.None? then [] else [IntArg(after.value.timestampNS), IntArg(after.value.timestampNS), Str(after.value.id)];
    if after.Some? {
      LinedWords(Open, Open);
      LinedAppend(Clause([Word(Open)], []), where);
      assert [] + where.args == where.args;
      WantsAfter(after.value);
      LinedAppend(Clause([Word(Open)] + where.sql, where.args), Clause(AfterText(after.value), afterArgs));
    } else {
      assert where.args + [] == where.args;
    }
    var full := Clause(RawWhere(where.sql, after), where.args + afterArgs);
    var tie := TieBreaker(signal, common.order);
    assert Lined(Clause(tie, [])) by {
      if tie == [] { WantsOne(Word(Open)); } else { LinedWords(tie[0].phrase, Open); assert tie == [Word(tie[0].phrase)]; }
    }
    LinedAppend(order, Clause(tie, []));
    assert order.args + [] == order.args;
    WantsPage(common);
    LinedSelect(selects, From(Table(signal)), full, Clause(order.sql + tie, order.args), Clause(PageText(common), PageArgs(common)));
    assert selectArgs + where.args + afterArgs == selectArgs + (where.args + afterArgs);
  }

  // ----- trace summaries -----

  function TraceAlias(name: string): Option<string>
  {
    if name == "trace_id" || name == "timestamp" || name == "span_count" || name == "duration_nano" || name == "name" then Some(name)
    else if name == "trace_duration" then Some("duration_nano")
    else if name == "service.name" then Some("service_name")
    else None
  }

  function TraceOrderItems(orders: seq<Order>): Option<seq<Fragment>>
  {
    if orders == [] then Some([])
    else
      var o := orders[|orders| - 1];
      var before := TraceOrderItems(orders[..|orders| - 1]);
      var name := TraceAlias(o.field.name);
      if before.None? || o.target != ByField || name.None? then None
      else Some(before.value + [[Word(Sorted(name.value, o.direction))]])
  }

  lemma {:induction false} WantsTraceOrder(orders: seq<Order>)
    requires TraceOrderItems(orders).Some?
    ensures Lined(Clause(Joined(TraceOrderItems(orders).value), []))
    ensures WantsOfAll(TraceOrderItems(orders).value) == [] && AllAligned(TraceOrderItems(orders).value)
  {
    hide TraceAlias, Wants, Aligned;
    var items: seq<Fragment> := TraceOrderItems(orders).value;
    if orders != [] {
      var before := TraceOrderItems(orders[..|orders| - 1]).value;
      WantsTraceOrder(orders[..|orders| - 1]);
      LinedWords(items[|items| - 1][0].phrase, Comma);
      AlignedParts(before, items[|items| - 1]);
      assert items == before + [items[|items| - 1]];
    }
    WantsJoined(items);
  }

  const SERVICE := FieldRef("service.name", Resource, StringType)

  function TraceSummaryText(plan: Plan, common: Common): Option<Fragment>
  {
    var where := CompileWhere(Traces, common.filter, plan);
    var service := Locate(Traces, SERVICE);
    var range := TimeRangeCondition(Traces, plan);
    var order: Option<seq<Fragment>> :=
      if common.order == [] then Some([[Word(Fixed("timestamp DESC, trace_id DESC"))]]) else TraceOrderItems(common.order);
    if where.Failure? || service.Failure? || range.Failure? || order.None? then None
    else
      Some([Word(Cte("__lite_matching_traces"))] + where.value.sql + [Word(EndCte), Word(Cte("__lite_trace_spans"))]
           + Read(Render(service.value)) + [Word(Aliased("service_name")), Word(Where)] + range.value.sql
           + [Word(Cte("__lite_trace_stats, __lite_roots")), Word(OrderBy)] + Joined(order.value) + PageText(common))
  }

  method CompileTraceSummary(plan: Plan, common: Common) returns (r: Result<Statement, StatementError>)
    ensures r.Success? <==> TraceSummaryText(plan, common).Some?
    ensures r.Success? ==> Delivers(r.value, TraceSummaryText(plan, common).value)
    ensures r.Success? ==>
              var limit := if common.limit == 0 then 100 else common.limit;
              && r.value.pagination == Some(Pagination(limit, common.offset)) && r.value.resultLimit == 0
              && EndsWith(r.value.sql, [Word(Limit), Placeholder(IntArg(limit + 1))]
                                       + if common.offset == 0 then [] else [Word(Offset), Placeholder(IntArg(common.offset))])
  {
    hide Wants, Aligned, CompileWhere, TimeRangeCondition, TraceOrderItems, PageText, PageArgs, Locate, Render, EndsWith, LimitOf;
    var matching: Result<Clause, StatementError> := CompileWhere(Traces, common.filter, plan);
    if matching.Failure? {
      return Failure(matching.error);
    }
    var located: Located := Locate(Traces, SERVICE);
    if located.Failure? {
      return Failure(UnresolvedField);
    }
    var service := Render(located.value);
    var range: Result<Clause, StatementError> := TimeRangeCondition(Traces, plan);
    if range.Failure? {
      return Failure(range.error);
    }
    var order: Fragment := Joined([[Word(Fixed("timestamp DESC, trace_id DESC"))]]);
    LinedWords(Fixed("timestamp DESC, trace_id DESC"), OrderBy);
    if |common.order| != 0 {
      var items: Option<seq<Fragment>> := TraceOrderItems(common.order);
      if items.None? {
        return Failure(UnsupportedOrder);
      }
      WantsTraceOrder(common.order);
      order := Joined(items.value);
    }
    var args := matching.value.args;
    args := args + service.args;
    args := args + range.value.args;
    args := args + PageArgs(common);
    var sql := [Word(Cte("__lite_matching_traces"))] + matching.value.sql + [Word(EndCte), Word(Cte("__lite_trace_spans"))]
      + Read(service) + [Word(Aliased("service_name")), Word(Where)] + range.value.sql
      + [Word(Cte("__lite_trace_stats, __lite_roots")), Word(OrderBy)] + order + PageText(common);
    LinedRead(Traces, SERVICE, "", 0);
    SummaryLines(matching.value, Clause(Read(service), service.args), range.value, order, common);
    PageEnds([Word(Cte("__lite_matching_traces"))] + matching.value.sql + [Word(EndCte), Word(Cte("__lite_trace_spans"))]
                 + Read(service) + [Word(Aliased("service_name")), Word(Where)] + range.value.sql
                 + [Word(Cte("__lite_trace_stats, __lite_roots")), Word(OrderBy)] + order, common);
    r := Success(Statement(sql, args, Some(Pagination(LimitOf(common), common.offset)), 0));
  }

  /** A clause behind fixed words. */
  lemma LinedAfterWords(before: Clause, words: Fragment, c: Clause)
    requires Lined(before) && Lined(Clause(words, [])) && Lined(c)
    ensures Lined(Clause(before.sql + words + c.sql, before.args + c.args))
  {
    hide Wants, Aligned;
    LinedAppend(before, Clause(words, []));
    assert before.args + [] == before.args;
    LinedAppend(Clause(before.sql + words, before.args), c);
  }

  lemma SummaryLines(where: Clause, service: Clause, range: Clause, order: Fragment, common: Common)
    requires Lined(where) && Lined(service) && Lined(range) && Lined(Clause(order, []))
    ensures Lined(Clause([Word(Cte("__lite_matching_traces"))] + where.sql + [Word(EndCte), Word(Cte("__lite_trace_spans"))]
                         + service.sql + [Word(Aliased("service_name")), Word(Where)] + range.sql
                         + [Word(Cte("__lite_trace_stats, __lite_roots")), Word(OrderBy)] + order + PageText(common),
                         where.args + service.args + range.args + PageArgs(common)))
  {
    hide Wants, Aligned, Lined, PageText, PageArgs;
    var first, second := Cte("__lite_matching_traces"), Cte("__lite_trace_spans");
    var alias, stats := Aliased("service_name"), Cte("__lite_trace_stats, __lite_roots");
    LinedWords(first, OrderBy);
    LinedWords(EndCte, second);
    LinedWords(alias, Where);
    LinedWords(stats, OrderBy);
    LinedAppend(Clause([Word(first)], []), where);
    assert [] + where.args == where.args;
    var a := Clause([Word(first)] + where.sql, where.args);
    LinedAfterWords(a, [Word(EndCte), Word(second)], service);
    var b := Clause(a.sql + [Word(EndCte), Word(second)] + service.sql, a.args + service.args);
    LinedAfterWords(b, [Word(alias), Word(Where)], range);
    var c := Clause(b.sql + [Word(alias), Word(Where)] + range.sql, b.args + range.args);
    LinedAfterWords(c, [Word(stats), Word(OrderBy)], Clause(order, []));
    assert c.args + [] == c.args;
    WantsPage(common);
    LinedAppend(Clause(c.sql + [Word(stats), Word(OrderBy)] + order, c.args), Clause(PageText(common), PageArgs(common)));
  }

  // ----- aggregates -----

  datatype LogAggregation = LogCount | LogSum | LogAvg | LogMin | LogMax | LogOther

  datatype TraceAggregation = TraceCount | DurationAvg | DurationP50 | DurationP90 | DurationP95 | DurationP99 | TraceOther

  function AggregateName(a: LogAggregation): string
  {
    match a case LogSum => "sum(" case LogAvg => "avg(" case LogMin => "min(" case _ => "max("
  }

  function LogAggregate(a: LogAggregation, field: FieldRef): (r: Result<Clause, StatementError>)
    ensures r.Success? ==> Lined(r.value)
  {
    match a
    case LogCount =>
      LinedWords(Function("count()"), Close);
      Success(Clause([Word(Function("count()"))], []))
    case LogOther => Failure(UnsupportedAggregation)
    case _ =>
      var loc := Locate(Logs, field);
      if loc.Failure? then Failure(UnresolvedField)
      else
        var f := Render(loc.value);
        LinedCall(field, AggregateName(a));
        Success(Clause([Word(Function(AggregateName(a)))] + Read(f) + [Word(Close)], f.args))
  }

  lemma LinedCall(field: FieldRef, fn: string)
    requires Locate(Logs, field).Success?
    ensures var f := Render(Locate(Logs, field).value);
            Lined(Clause([Word(Function(fn))] + Read(f) + [Word(Close)], f.args))
  {
    hide Locate, Render, Wants, Aligned;
    var f := Render(Locate(Logs, field).value);
    LinedRead(Logs, field, "", 0);
    LinedWords(Function(fn), Close);
    LinedWords(Close, Close);
    LinedAppend(Clause([Word(Function(fn))], []), Clause(Read(f), f.args));
    assert [] + f.args == f.args && f.args + [] == f.args;
    LinedAppend(Clause([Word(Function(fn))] + Read(f), f.args), Clause([Word(Close)], []));
  }

  function DurationAggregate(a: TraceAggregation): string
  {
    match a
    case TraceCount => "count()"
    case DurationAvg => "avg(duration_nano)"
    case DurationP50 => "quantile(0.5)(duration_nano)"
    case DurationP90 => "quantile(0.9)(duration_nano)"
    case DurationP95 => "quantile(0.95)(duration_nano)"
    case _ => "quantile(0.99)(duration_nano)"
  }

  function TraceAggregate(a: TraceAggregation): (r: Result<Clause, StatementError>)
    ensures r.Success? ==> Lined(r.value)
  {
    if a == TraceOther then Failure(UnsupportedAggregation)
    else
      LinedWords(Function(DurationAggregate(a)), Close);
      Success(Clause([Word(Function(DurationAggregate(a)))], []))
  }

  function HavingText(having: Option<Having>, aggregation: Fragment): Fragment
  {
    if having.None? then []
    else [Word(Fixed(" HAVING "))] + aggregation + Bind(Compared(having.value.relation), Num(having.value.value))
  }

  function HavingArgs(having: Option<Having>, aggregation: Args): Args
  {
    if having.None? then [] else aggregation + [Num(having.value.value)]
  }

  lemma LinedHaving(having: Option<Having>, aggregation: Clause)
    requires Lined(aggregation)
    ensures Lined(Clause(HavingText(having, aggregation.sql), HavingArgs(having, aggregation.args)))
  {
    if having.None? {
      WantsOne(Word(Comma));
    } else {
      hide Wants, Aligned;
      LinedWords(Fixed(" HAVING "), Comma);
      LinedAppend(Clause([Word(Fixed(" HAVING "))], []), aggregation);
      assert [] + aggregation.args == aggregation.args;
      WantsBind(Compared(having.value.relation), Num(having.value.value));
      LinedAppend(Clause([Word(Fixed(" HAVING "))] + aggregation.sql, aggregation.args),
                  Clause(Bind(Compared(having.value.relation), Num(having.value.value)), [Num(having.value.value)]));
    }
  }

  function GroupText(groups: seq<Fragment>): Fragment
  {
    if groups == [] then [] else [Word(GroupBy)] + Joined(groups)
  }

  lemma LinedGroups(groups: seq<Fragment>)
    requires AllAligned(groups)
    ensures Lined(Clause(GroupText(groups), WantsOfAll(groups)))
  {
    if groups == [] {
      WantsOne(Word(Comma));
    } else {
      WantsJoined(groups);
      LinedWords(GroupBy, Comma);
      LinedAppend(Clause([Word(GroupBy)], []), Clause(Joined(groups), WantsOfAll(groups)));
      assert [] + WantsOfAll(groups) == WantsOfAll(groups);
    }
  }

  /** A limited result asks for one row more than its limit, to see whether it was cut. */
  function LimitText(limit: nat): Fragment { if limit == 0 then [] else Bind(Limit, IntArg(limit + 1)) }

  function LimitArgs(limit: nat): Args { if limit == 0 then [] else [IntArg(limit + 1)] }

  lemma LimitTextIs(limit: nat)
    ensures limit != 0 ==> LimitText(limit) == [Word(Limit), Placeholder(IntArg(limit + 1))]
  {
  }

  lemma LinedLimit(limit: nat)
    ensures Lined(Clause(LimitText(limit), LimitArgs(limit)))
  {
    WantsOne(Word(Comma));
    WantsBind(Limit, IntArg(limit + 1));
  }

  function AggregateSelects(bucket: Option<Fragment>, fields: seq<ResolvedField>, aggregation: Fragment): seq<Fragment>
  {
    (if bucket.Some? then [bucket.value + [Word(Aliased("timestamp"))]] else [])
    + Columns(fields, "group_") + [aggregation + [Word(Aliased("value"))]]
  }

  function AggregateGroups(bucket: Option<Fragment>, fields: seq<ResolvedField>): seq<Fragment>
  {
    (if bucket.Some? then [bucket.value] else []) + Reads(fields)
  }

  function DefaultAggregateOrder(plan: Plan): Fragment
  {
    [Word(Fixed(if plan.resultType == TimeSeries then "timestamp ASC" else "value DESC"))]
  }

  function BucketText(signal: Signal, plan: Plan): Result<Option<Fragment>, StatementError>
  {
    if plan.resultType != TimeSeries then Success(None)
    else
      var b := TimeBucket(signal, plan.stepMS);
      if b.Failure? then Failure(b.error) else Success(Some(b.value.sql))
  }

  function AggregateText(signal: Signal, plan: Plan, common: Common, aggregation: Fragment): Option<Fragment>
  {
    var bucket := BucketText(signal, plan);
    var fields := ResolveAll(signal, common.groupBy);
    var where := CompileWhere(signal, common.filter, plan);
    var order := OrderText(signal, common.order, true, DefaultAggregateOrder(plan));
    if bucket.Failure? || fields.None? || where.Failure? || order.None? then None
    else
      Some([Word(Select)] + Joined(AggregateSelects(bucket.value, fields.value, aggregation)) + [Word(From(Table(signal))), Word(Where)]
           + where.value.sql + GroupText(AggregateGroups(bucket.value, fields.value)) + HavingText(common.having, aggregation)
           + [Word(OrderBy)] + order.value + LimitText(common.limit))
  }

  /** Selected and grouping columns: the bucket of a time series, the groups and the value. */
  method AggregateLists(signal: Signal, plan: Plan, common: Common, aggregation: Clause) returns (r: Result<FieldLists, StatementError>)
    requires Lined(aggregation)
    ensures r.Success? <==> BucketText(signal, plan).Success? && ResolveAll(signal, common.groupBy).Some?
    ensures r.Success? ==>
      && r.value.selects == AggregateSelects(BucketText(signal, plan).value, ResolveAll(signal, common.groupBy).value, aggregation.sql)
      && r.value.groups == AggregateGroups(BucketText(signal, plan).value, ResolveAll(signal, common.groupBy).value)
      && r.value.selectArgs == WantsOfAll(r.value.selects) && AllAligned(r.value.selects)
      && r.value.groupArgs == WantsOfAll(r.value.groups) && AllAligned(r.value.groups)
  {
    hide Wants, Aligned, ResolveAll, Columns, Reads, TimeBucket, WantsOfAll, AllAligned;
    var selects: seq<Fragment>, selectArgs: Args, groups: seq<Fragment>, groupArgs: Args := [], [], [], [];
    NothingAligned();
    if plan.resultType == TimeSeries {
      var time: Result<Clause, StatementError> := TimeBucket(signal, plan.stepMS);
      if time.Failure? {
        return Failure(time.error);
      }
      LinedItem(time.value, "timestamp");
      selects, groups := [time.value.sql + [Word(Aliased("timestamp"))]], [time.value.sql];
      selectArgs, groupArgs := time.value.args, time.value.args;
    }
    var keys: Result<FieldLists, StatementError> := CompileColumns(signal, common.groupBy, "group_");
    if keys.Failure? {
      return Failure(keys.error);
    }
    WantsOfAllAppend(selects, keys.value.selects);
    selects, selectArgs := selects + keys.value.selects, selectArgs + keys.value.selectArgs;
    WantsOfAllAppend(groups, keys.value.groups);
    groups, groupArgs := groups + keys.value.groups, groupArgs + keys.value.groupArgs;
    LinedItem(aggregation, "value");
    WantsOfAllAppend(selects, [aggregation.sql + [Word(Aliased("value"))]]);
    selects, selectArgs := selects + [aggregation.sql + [Word(Aliased("value"))]], selectArgs + aggregation.args;
    r := Success(FieldLists(selects, groups, selectArgs, groupArgs));
  }

  method CompileAggregate(signal: Signal, plan: Plan, common: Common, aggregation: Clause) returns (r: Result<Statement, StatementError>)
    requires Lined(aggregation)
    ensures r.Success? <==> AggregateText(signal, plan, common, aggregation.sql).Some?
    ensures r.Success? ==> Delivers(r.value, AggregateText(signal, plan, common, aggregation.sql).value)
    ensures r.Success? ==> r.value.pagination.None? && r.value.resultLimit == common.limit
    ensures r.Success? && common.limit != 0 ==> EndsWith(r.value.sql, [Word(Limit), Placeholder(IntArg(common.limit + 1))])
  {
    hide Wants, Aligned, CompileWhere, ResolveAll, BucketText, AggregateSelects, AggregateGroups, OrderText, HavingText, HavingArgs,
      GroupText, LimitText, LimitArgs, DefaultAggregateOrder, Table, WantsOfAll, AllAligned, Joined;
    var lists: Result<FieldLists, StatementError> := AggregateLists(signal, plan, common, aggregation);
    if lists.Failure? {
      return Failure(lists.error);
    }
    var where: Result<Clause, StatementError> := CompileWhere(signal, common.filter, plan);
    if where.Failure? {
      return Failure(where.error);
    }
    var args := lists.value.selectArgs + where.value.args;
    args := args + lists.value.groupArgs;
    args := args + HavingArgs(common.having, aggregation.args);
    LinedDefaultAggregateOrder(plan);
    var order: Result<Clause, StatementError> := CompileOrder(signal, common.order, true, DefaultAggregateOrder(plan));
    if order.Failure? {
      return Failure(order.error);
    }
    args := args + order.value.args;
    args := args + LimitArgs(common.limit);
    var sql := [Word(Select)] + Joined(lists.value.selects) + [Word(From(Table(signal))), Word(Where)] + where.value.sql
      + GroupText(lists.value.groups) + HavingText(common.having, aggregation.sql) + [Word(OrderBy)] + order.value.sql + LimitText(common.limit);
    AggregateLines(lists.value.selects, Table(signal), where.value, lists.value.groups, common, aggregation, order.value);
    LimitTextIs(common.limit);
    EndsWithLast([Word(Select)] + Joined(lists.value.selects) + [Word(From(Table(signal))), Word(Where)] + where.value.sql
                 + GroupText(lists.value.groups) + HavingText(common.having, aggregation.sql) + [Word(OrderBy)] + order.value.sql,
                 LimitText(common.limit));
    r := Success(Statement(sql, args, None, common.limit));
  }

  lemma LinedDefaultAggregateOrder(plan: Plan)
    ensures Lined(Clause(DefaultAggregateOrder(plan), []))
  {
    WantsWord(DefaultAggregateOrder(plan)[0].phrase);
  }

  lemma LinedItem(c: Clause, name: string)
    requires Lined(c)
    ensures WantsOfAll([c.sql + [Word(Aliased(name))]]) == c.args && AllAligned([c.sql + [Word(Aliased(name))]])
    ensures WantsOfAll([c.sql]) == c.args && AllAligned([c.sql])
  {
    LinedWords(Aliased(name), Comma);
    LinedAppend(c, Clause([Word(Aliased(name))], []));
    hide Wants, Aligned;
    var item := c.sql + [Word(Aliased(name))];
    assert c.args + [] == c.args;
    assert [item][..0] == [] && [c.sql][..0] == [];
    assert WantsOfAll([]) == [];
    assert WantsOfAll([item]) == [] + Wants(item) && WantsOfAll([c.sql]) == [] + Wants(c.sql);
  }

  lemma {:induction false} WantsOfAllAppend(a: seq<Fragment>, b: seq<Fragment>)
    ensures WantsOfAll(a + b) == WantsOfAll(a) + WantsOfAll(b)
    ensures AllAligned(a) && AllAligned(b) ==> AllAligned(a + b)
  {
    hide Wants, Aligned;
    if b == [] {
      assert a + b == a;
    } else {
      WantsOfAllAppend(a, b[..|b| - 1]);
      assert (a + b)[..|a + b| - 1] == a + b[..|b| - 1];
    }
  }

  lemma AggregateLines(selects: seq<Fragment>, table: string, where: Clause, groups: seq<Fragment>, common: Common,
                       aggregation: Clause, order: Clause)
    requires AllAligned(selects) && AllAligned(groups) && Lined(where) && Lined(aggregation) && Lined(order)
    ensures Lined(Clause([Word(Select)] + Joined(selects) + [Word(From(table)), Word(Where)] + where.sql + GroupText(groups)
                         + HavingText(common.having, aggregation.sql) + [Word(OrderBy)] + order.sql + LimitText(common.limit),
                         WantsOfAll(selects) + where.args + WantsOfAll(groups) + HavingArgs(common.having, aggregation.args)
                         + order.args + LimitArgs(common.limit)))
  {
    hide Wants, Aligned, WantsOfAll, AllAligned, Lined, HavingText, HavingArgs, GroupText, LimitText, LimitArgs;
    LinedGroups(groups);
    LinedHaving(common.having, aggregation);
    LinedLimit(common.limit);
    LinedList(selects);
    LinedWords(From(table), Where);
    LinedWords(OrderBy, Comma);
    var list := Clause([Word(Select)] + Joined(selects), WantsOfAll(selects));
    LinedAfterWords(list, [Word(From(table)), Word(Where)], where);
    var a := Clause(list.sql + [Word(From(table)), Word(Where)] + where.sql, list.args + where.args);
    LinedAppend(a, Clause(GroupText(groups), WantsOfAll(groups)));
    var b := Clause(a.sql + GroupText(groups), a.args + WantsOfAll(groups));
    LinedAppend(b, Clause(HavingText(common.having, aggregation.sql), HavingArgs(common.having, aggregation.args)));
    var c := Clause(b.sql + HavingText(common.having, aggregation.sql), b.args + HavingArgs(common.having, aggregation.args));
    LinedAfterWords(c, [Word(OrderBy)], order);
    LinedAppend(Clause(c.sql + [Word(OrderBy)] + order.sql, c.args + order.args), Clause(LimitText(common.limit), LimitArgs(common.limit)));
  }

  lemma LinedList(selects: seq<Fragment>)
    requires AllAligned(selects)
    ensures Lined(Clause([Word(Select)] + Joined(selects), WantsOfAll(selects)))
  {
    hide Wants, Aligned, WantsOfAll, AllAligned;
    WantsJoined(selects);
    LinedWords(Select, Comma);
    LinedAppend(Clause([Word(Select)], []), Clause(Joined(selects), WantsOfAll(selects)));
    assert [] + WantsOfAll(selects) == WantsOfAll(selects);
  }

  // ----- every statement -----

  /** As many arguments as placeholders, each the one meant for its place. */
  lemma DeliveredOneForOne(s: Statement, text: Fragment)
    requires Delivers(s, text)
    ensures SqlText.Slots(s.sql) == |s.args| && s.args == Wants(s.sql)
  {
    hide Wants, Aligned, SqlText.Slots;
    SlotsAreWanted(s.sql);
  }

  /** Log queries: raw rows, or an aggregate for every other result type. */
  method CompileLogs(plan: Plan, common: Common, aggregation: LogAggregation, field: FieldRef) returns (r: Result<Statement, StatementError>)
    ensures r.Success? <==>
              if plan.resultType == RawRows then RawText(Logs, plan, common).Some?
              else LogAggregate(aggregation, field).Success?
                   && AggregateText(Logs, plan, common, LogAggregate(aggregation, field).value.sql).Some?
    ensures r.Success? ==> Delivers(r.value, r.value.sql) && SqlText.Slots(r.value.sql) == |r.value.args|
    ensures r.Success? && plan.resultType == RawRows ==> Some(r.value.sql) == RawText(Logs, plan, common)
    ensures r.Success? && plan.resultType != RawRows ==>
              && LogAggregate(aggregation, field).Success?
              && Some(r.value.sql) == AggregateText(Logs, plan, common, LogAggregate(aggregation, field).value.sql)
  {
    hide RawText, AggregateText, LogAggregate, Lined, SqlText.Slots;
    if plan.resultType == RawRows {
      r := CompileRaw(Logs, plan, common);
    } else {
      var value: Result<Clause, StatementError> := LogAggregate(aggregation, field);
      if value.Failure? {
        return Failure(value.error);
      }
      r := CompileAggregate(Logs, plan, common, value.value);
    }
    if r.Success? {
      DeliveredOneForOne(r.value, r.value.sql);
    }
  }

  /** Trace queries: raw spans, trace summaries, or an aggregate. */
  method CompileTraces(plan: Plan, common: Common, aggregation: TraceAggregation) returns (r: Result<Statement, StatementError>)
    ensures r.Success? <==>
              match plan.resultType
              case RawRows => RawText(Traces, plan, common).Some?
              case TraceList => TraceSummaryText(plan, common).Some?
              case _ => TraceAggregate(aggregation).Success?
                        && AggregateText(Traces, plan, common, TraceAggregate(aggregation).value.sql).Some?
    ensures r.Success? ==> Delivers(r.value, r.value.sql) && SqlText.Slots(r.value.sql) == |r.value.args|
    ensures r.Success? && plan.resultType == RawRows ==> Some(r.value.sql) == RawText(Traces, plan, common)
    ensures r.Success? && plan.resultType == TraceList ==> Some(r.value.sql) == TraceSummaryText(plan, common)
    ensures r.Success? && plan.resultType != RawRows && plan.resultType != TraceList ==>
              && TraceAggregate(aggregation).Success?
              && Some(r.value.sql) == AggregateText(Traces, plan, common, TraceAggregate(aggregation).value.sql)
  {
    hide RawText, TraceSummaryText, AggregateText, TraceAggregate, Lined, SqlText.Slots;
    match plan.resultType {
      case RawRows =>
        r := CompileRaw(Traces, plan, common);
      case TraceList =>
        r := CompileTraceSummary(plan, common);
      case _ =>
        var value: Result<Clause, StatementError> := TraceAggregate(aggregation);
        if value.Failure? {
          return Failure(value.error);
        }
        r := CompileAggregate(Traces, plan, common, value.value);
    }
    if r.Success? {
      DeliveredOneForOne(r.value, r.value.sql);
    }
  }
}
