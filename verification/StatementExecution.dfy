/** Reading the rows of one statement: the row budget, pages and limited results. */
module StatementExecution {
  import opened Fields
  import opened FilterSql
  import opened FieldCatalog
  import opened SqlText
  import opened StatementClauses
  import opened Statements
  import opened Results

  datatype PageInfo = PageInfo(limit: nat, offset: nat, returned: nat, hasNextPage: bool)

  datatype RowSet<T> = RowSet(rows: seq<T>, page: Option<PageInfo>, truncated: bool)

  datatype RowError = ConflictingLimits | TooManyRows

  predicate Conflicting(pagination: Option<Pagination>, resultLimit: nat)
  {
    pagination.Some? && (pagination.value.limit == 0 || resultLimit != 0)
  }

  /** The first rows of a longer answer. */
  function FirstOf<T>(rows: seq<T>, limit: nat): seq<T> { if |rows| > limit then rows[..limit] else rows }

  /** Reads what the store returns. `fetched` are its rows; of these at most `maxRows` are read,
      and a look-ahead row is cut off again. */
  method ExecuteStatement<T>(pagination: Option<Pagination>, resultLimit: nat, maxRows: nat, fetched: seq<T>)
    returns (r: Result<RowSet<T>, RowError>)
    ensures r.Success? <==> !Conflicting(pagination, resultLimit) && |fetched| <= maxRows
    ensures r.Success? && pagination.Some? ==>
      && r.value.rows == FirstOf(fetched, pagination.value.limit) && !r.value.truncated
      && r.value.page == Some(PageInfo(pagination.value.limit, pagination.value.offset, |r.value.rows|, |fetched| > pagination.value.limit))
    ensures r.Success? && pagination.None? ==>
      && r.value.page.None?
      && r.value.rows == (if resultLimit == 0 then fetched else FirstOf(fetched, resultLimit))
      && (r.value.truncated <==> resultLimit != 0 && |fetched| > resultLimit)
  {
    if pagination.Some? && (pagination.value.limit == 0 || resultLimit != 0) {
      return Failure(ConflictingLimits);
    }
    var rows: seq<T> := [];
    for i := 0 to |fetched|
      invariant rows == fetched[..i] && |rows| <= maxRows
    {
      if |rows| >= maxRows {
        return Failure(TooManyRows);
      }
      rows := rows + [fetched[i]];
    }
    assert fetched[..|fetched|] == fetched;
    var page: Option<PageInfo>, truncated := None, false;
    if pagination.Some? {
      var hasNextPage := |rows| > pagination.value.limit;
      if hasNextPage {
        rows := rows[..pagination.value.limit];
      }
      page := Some(PageInfo(pagination.value.limit, pagination.value.offset, |rows|, hasNextPage));
    }
    if resultLimit != 0 && |rows| > resultLimit {
      rows := rows[..resultLimit];
      truncated := true;
    }
    r := Success(RowSet(rows, page, truncated));
  }

  /** Asking for one row more than the limit tells exactly whether there are more, and the rows
      kept are the first of all of them. */
  lemma LookAheadIsExact<T>(all: seq<T>, limit: nat)
    ensures |FirstOf(all, limit + 1)| > limit <==> |all| > limit
    ensures FirstOf(FirstOf(all, limit + 1), limit) == FirstOf(all, limit)
  {
    if |all| > limit + 1 {
      assert all[..limit + 1][..limit] == all[..limit];
    }
  }

  // ----- pages of a store that obeys the text -----

  function Skip<T>(rows: seq<T>, n: nat): seq<T> { if n <= |rows| then rows[n..] else [] }

  /** A count behind a word. */
  predicate Counts(sql: Fragment, i: nat, word: Phrase)
  {
    i + 2 <= |sql| && sql[i] == Word(word) && sql[i + 1].Placeholder? && sql[i + 1].want.Num? && sql[i + 1].want.n.Finite?
    && sql[i + 1].want.n.x >= 0.0
  }

  function CountAt(sql: Fragment, i: nat, word: Phrase): nat
    requires Counts(sql, i, word)
  {
    sql[i + 1].want.n.x.Floor
  }

  /** What a store returns of all selected rows: at most the limit its text ends in, behind the
      offset if there is one. */
  function Fetched<T>(sql: Fragment, all: seq<T>): seq<T>
  {
    var n := |sql|;
    if n >= 4 && Counts(sql, n - 4, Limit) && Counts(sql, n - 2, Offset) then
      FirstOf(Skip(all, CountAt(sql, n - 2, Offset)), CountAt(sql, n - 4, Limit))
    else if n >= 2 && Counts(sql, n - 2, Limit) then FirstOf(all, CountAt(sql, n - 2, Limit))
    else all
  }

  lemma FetchedPage<T>(sql: Fragment, all: seq<T>, limit: nat, offset: nat)
    requires EndsWith(sql, [Word(Limit), Placeholder(IntArg(limit))]
                           + if offset == 0 then [] else [Word(Offset), Placeholder(IntArg(offset))])
    ensures Fetched(sql, all) == FirstOf(Skip(all, offset), limit)
  {
    var n := |sql|;
    var tail := [Word(Limit), Placeholder(IntArg(limit))] + if offset == 0 then [] else [Word(Offset), Placeholder(IntArg(offset))];
    assert forall i :: 0 <= i < |tail| ==> sql[n - |tail| + i] == tail[i];
    assert (limit as real).Floor == limit && (offset as real).Floor == offset;
    if offset == 0 {
      assert sql[n - 2] == Word(Limit) && sql[n - 1] == Placeholder(IntArg(limit));
      assert Skip(all, 0) == all;
    } else {
      assert sql[n - 4] == Word(Limit) && sql[n - 3] == Placeholder(IntArg(limit));
      assert sql[n - 2] == Word(Offset) && sql[n - 1] == Placeholder(IntArg(offset));
    }
  }

  /** A query for raw rows over a store that obeys the compiled text gives exactly the rows of its
      page, and tells exactly whether more follow. */
  method QueryRows<T>(signal: Signal, plan: Plan, common: Common, maxRows: nat, all: seq<T>)
    returns (compiled: Option<StatementError>, r: Result<RowSet<T>, RowError>)
    ensures compiled.None? <==> RawText(signal, plan, common).Some?
    ensures compiled.None? ==>
              var limit := if common.limit == 0 then 100 else common.limit;
              r.Success? <==> |FirstOf(Skip(all, common.offset), limit + 1)| <= maxRows
    ensures compiled.None? && r.Success? ==>
              var limit := if common.limit == 0 then 100 else common.limit;
              && r.value.rows == FirstOf(Skip(all, common.offset), limit) && !r.value.truncated
              && r.value.page == Some(PageInfo(limit, common.offset, |r.value.rows|, |all| > common.offset + limit))
  {
    hide RawText, Fetched, EndsWith, Delivers;
    r := Failure(ConflictingLimits);
    var statement: Result<Statement, StatementError> := CompileRaw(signal, plan, common);
    if statement.Failure? {
      return Some(statement.error), r;
    }
    var limit := if common.limit == 0 then 100 else common.limit;
    FetchedPage(statement.value.sql, all, limit + 1, common.offset);
    LookAheadIsExact(Skip(all, common.offset), limit);
    compiled := None;
    r := ExecuteStatement(statement.value.pagination, statement.value.resultLimit, maxRows, Fetched(statement.value.sql, all));
  }

  /** A query for traces does the same. */
  method QueryTraces<T>(plan: Plan, common: Common, maxRows: nat, all: seq<T>)
    returns (compiled: Option<StatementError>, r: Result<RowSet<T>, RowError>)
    ensures compiled.None? <==> TraceSummaryText(plan, common).Some?
    ensures compiled.None? ==>
              var limit := if common.limit == 0 then 100 else common.limit;
              r.Success? <==> |FirstOf(Skip(all, common.offset), limit + 1)| <= maxRows
    ensures compiled.None? && r.Success? ==>
              var limit := if common.limit == 0 then 100 else common.limit;
              && r.value.rows == FirstOf(Skip(all, common.offset), limit) && !r.value.truncated
              && r.value.page == Some(PageInfo(limit, common.offset, |r.value.rows|, |all| > common.offset + limit))
  {
    hide TraceSummaryText, Fetched, EndsWith, Delivers;
    r := Failure(ConflictingLimits);
    var statement: Result<Statement, StatementError> := CompileTraceSummary(plan, common);
    if statement.Failure? {
      return Some(statement.error), r;
    }
    var limit := if common.limit == 0 then 100 else common.limit;
    FetchedPage(statement.value.sql, all, limit + 1, common.offset);
    LookAheadIsExact(Skip(all, common.offset), limit);
    compiled := None;
    r := ExecuteStatement(statement.value.pagination, statement.value.resultLimit, maxRows, Fetched(statement.value.sql, all));
  }

  lemma {:induction false} LastOfJoined(parts: seq<Fragment>)
    requires parts != [] && forall p: Fragment :: p in parts ==> p != [] && p[|p| - 1].Word?
    ensures Joined(parts) != [] && Joined(parts)[|Joined(parts)| - 1].Word?
  {
    if |parts| > 1 {
      LastOfJoined(parts[..|parts| - 1]);
    }
  }

  lemma {:induction false} ItemsEndInWords(signal: Signal, orders: seq<Order>)
    requires OrderItems(signal, orders, true).Some?
    ensures |OrderItems(signal, orders, true).value| == |orders|
    ensures forall p: Fragment :: p in OrderItems(signal, orders, true).value ==> p != [] && p[|p| - 1].Word?
  {
    hide Locate, Render;
    if orders != [] {
      ItemsEndInWords(signal, orders[..|orders| - 1]);
    }
  }

  /** Without a limit the text ends in the direction of its order, so that nothing is cut. */
  lemma UnlimitedIsWhole<T>(signal: Signal, plan: Plan, common: Common, aggregation: Fragment, all: seq<T>)
    requires AggregateText(signal, plan, common, aggregation).Some? && common.limit == 0
    ensures Fetched(AggregateText(signal, plan, common, aggregation).value, all) == all
  {
    hide CompileWhere, ResolveAll, BucketText, AggregateSelects, AggregateGroups, GroupText, HavingText, Joined, Table, OrderItems;
    var sql := AggregateText(signal, plan, common, aggregation).value;
    var order := OrderText(signal, common.order, true, DefaultAggregateOrder(plan)).value;
    if common.order != [] {
      ItemsEndInWords(signal, common.order);
      LastOfJoined(OrderItems(signal, common.order, true).value);
    }
    assert order != [] && order[|order| - 1].Word?;
    assert sql[|sql| - 1] == order[|order| - 1];
  }

  /** An aggregate gives the first groups up to its limit, or all without one, and is marked truncated
      exactly when there are more. */
  method QueryGroups<T>(signal: Signal, plan: Plan, common: Common, aggregation: Clause, maxRows: nat, all: seq<T>)
    returns (compiled: Option<StatementError>, r: Result<RowSet<T>, RowError>)
    requires Lined(aggregation)
    ensures compiled.None? <==> AggregateText(signal, plan, common, aggregation.sql).Some?
    ensures compiled.None? ==>
              (r.Success? <==> |if common.limit == 0 then all else FirstOf(all, common.limit + 1)| <= maxRows)
    ensures compiled.None? && r.Success? ==>
              && r.value.rows == (if common.limit == 0 then all else FirstOf(all, common.limit)) && r.value.page.None?
              && (r.value.truncated <==> common.limit != 0 && |all| > common.limit)
  {
    hide AggregateText, Fetched, EndsWith, Delivers, Lined;
    r := Failure(ConflictingLimits);
    var statement: Result<Statement, StatementError> := CompileAggregate(signal, plan, common, aggregation);
    if statement.Failure? {
      return Some(statement.error), r;
    }
    DeliversText(statement.value, AggregateText(signal, plan, common, aggregation.sql).value);
    if common.limit == 0 {
      UnlimitedIsWhole(signal, plan, common, aggregation.sql, all);
    } else {
      NoOffset([Word(Limit), Placeholder(IntArg(common.limit + 1))]);
      FetchedPage(statement.value.sql, all, common.limit + 1, 0);
      LookAheadIsExact(all, common.limit);
      SkipNothing(all);
    }
    compiled := None;
    r := ExecuteStatement(statement.value.pagination, statement.value.resultLimit, maxRows, Fetched(statement.value.sql, all));
  }

  lemma DeliversText(s: Statement, text: Fragment)
    requires Delivers(s, text)
    ensures s.sql == text
  {
  }

  lemma SkipNothing<T>(rows: seq<T>)
    ensures Skip(rows, 0) == rows
  {
  }

  lemma NoOffset(tail: Fragment)
    ensures tail + [] == tail
  {
  }
}
