/** Collects the inputs of a formula from the results computed so far. */
module FormulaInputs {
  import opened Results
  import opened FormulaTyping
  import opened FormulaEvaluation
  import opened Alignment

  type QueryResults = map<string, QueryResult>

  predicate Available(references: seq<string>, results: QueryResults)
  {
    forall r :: r in references ==> r in results
  }

  function Gather(references: seq<string>, results: QueryResults): (inputs: seq<QueryResult>)
    requires Available(references, results)
  {
    seq(|references|, i requires 0 <= i < |references| => results[references[i]])
  }

  /** Everything the formula needs is there and fits together. */
  predicate InputsAccepted(references: seq<string>, results: QueryResults)
  {
    Available(references, results) && Alignable(Gather(references, results))
  }

  method SameResultColumns(left: seq<Column>, right: seq<Column>) returns (same: bool)
    ensures same == SameColumns(left, right)
  {
    if |left| != |right| {
      return false;
    }
    for i := 0 to |left|
      invariant forall k :: 0 <= k < i ==> left[k].name == right[k].name && left[k].field == right[k].field
    {
      if left[i].name != right[i].name {
        return false;
      }
      if left[i].field.None? != right[i].field.None? {
        return false;
      }
      if left[i].field.Some? && left[i].field != right[i].field {
        return false;
      }
    }
    same := true;
  }

  datatype Collection = Collection(keys: seq<Key>, seen: set<string>, values: map<string, Inputs>)

  /** What has been collected is what the given events leave. */
  ghost predicate Holds(c: Collection, events: seq<Event>)
  {
    && c.keys == FirstKeys(events) && c.values == Collected(events)
    && forall text :: text in c.seen <==> HasKey(c.keys, text)
  }

  method ReadRow(reference: string, q: QueryResult, row: Row, c: Collection, ghost before: seq<Event>)
    returns (r: Result<Collection, InputError>)
    requires Holds(c, before)
    ensures r.Success? <==> RowFits(q, row)
    ensures r.Success? ==> Holds(r.value, before + [EventOf(reference, q, row)])
  {
    hide AlignmentKey, HasKey;
    if |row| != |q.columns| || |row| == 0 {
      return Failure(InvalidRow(reference));
    }
    var key := KeyOf(row);
    var keys, seen, values := c.keys, c.seen, c.values;
    HasAddedKey(keys, key);
    if key.text !in seen {
      seen := seen + {key.text};
      keys := keys + [key];
    }
    if key.text !in values {
      values := values[key.text := map[]];
    }
    var value: Result<Value, InputError> := CellToValue(row[|row| - 1].value, ResultType(q));
    if value.Failure? {
      return Failure(value.error);
    }
    values := values[key.text := values[key.text][reference := value.value]];
    OneMore(before, EventOf(reference, q, row));
    r := Success(Collection(keys, seen, values));
  }

  /** Adds the rows of one input to the keys and values collected before. */
  method ReadInput(reference: string, q: QueryResult, c: Collection, ghost before: seq<Event>)
    returns (r: Result<Collection, InputError>)
    requires Holds(c, before)
    ensures r.Success? <==> RowsFit(q, q.rows)
    ensures r.Success? ==> Holds(r.value, before + ReadRows(reference, q, q.rows))
  {
    hide Holds, RowFits;
    var current := c;
    ghost var events := before;
    assert before + [] == before;
    for i := 0 to |q.rows|
      invariant RowsFit(q, q.rows[..i])
      invariant events == before + ReadRows(reference, q, q.rows[..i])
      invariant Holds(current, events)
    {
      assert q.rows[i] in q.rows;
      var one: Result<Collection, InputError> := ReadRow(reference, q, q.rows[i], current, events);
      if one.Failure? {
        return Failure(one.error);
      }
      current := one.value;
      assert q.rows[..i + 1] == q.rows[..i] + [q.rows[i]];
      events := events + [EventOf(reference, q, q.rows[i])];
    }
    assert q.rows[..|q.rows|] == q.rows;
    r := Success(current);
  }

  lemma OneMore(events: seq<Event>, e: Event)
    ensures FirstKeys(events + [e]) == AddKey(FirstKeys(events), e.key)
    ensures Collected(events + [e]) == Collect(Collected(events), e)
  {
    assert (events + [e])[..|events|] == events;
  }

  /** Gives an input without a row at this key its default. */
  method FillDefaults(row: Inputs, references: seq<string>, results: QueryResults, zeros: set<string>) returns (filled: Inputs)
    requires Available(references, results)
    ensures filled == FillRow(row, references, Gather(references, results), zeros)
  {
    hide DefaultValue, ResultType;
    filled := row;
    for j := 0 to |references|
      invariant filled == FillRow(row, references[..j], Gather(references, results)[..j], zeros)
    {
      assert references[..j + 1][..j] == references[..j];
      assert Gather(references, results)[..j + 1][..j] == Gather(references, results)[..j];
      var reference := references[j];
      if reference !in filled {
        filled := filled[reference := DefaultValue(ResultType(results[reference]), reference in zeros)];
      }
    }
    assert references[..|references|] == references;
    assert Gather(references, results)[..|references|] == Gather(references, results);
  }

  method FillAll(keys: seq<Key>, collected: map<string, Inputs>, references: seq<string>, results: QueryResults, zeros: set<string>)
    returns (values: map<string, Inputs>)
    requires Available(references, results) && DistinctTexts(keys)
    requires forall text :: HasKey(keys, text) <==> text in collected
    ensures values == map text | text in collected :: FillRow(collected[text], references, Gather(references, results), zeros)
  {
    hide FillRow;
    values := collected;
    for k := 0 to |keys|
      invariant values.Keys == collected.Keys
      invariant forall i :: 0 <= i < k ==>
                  && keys[i].text in collected
                  && values[keys[i].text] == FillRow(collected[keys[i].text], references, Gather(references, results), zeros)
      invariant forall i :: k <= i < |keys| ==> keys[i].text in collected && values[keys[i].text] == collected[keys[i].text]
    {
      var row := FillDefaults(values[keys[k].text], references, results, zeros);
      values := values[keys[k].text := row];
    }
    forall text | text in collected
      ensures values[text] == FillRow(collected[text], references, Gather(references, results), zeros)
    {
      assert HasKey(keys, text);
      var key :| key in keys && key.text == text;
    }
  }

  /** Succeeds exactly when all inputs are there and fit together, with their alignment. */
  method FormulaInputs(references: seq<string>, results: QueryResults, zeros: set<string>) returns (r: Result<Aligned, InputError>)
    ensures r.Success? <==> InputsAccepted(references, results)
    ensures r.Success? ==> r.value == Align(references, Gather(references, results), zeros)
  {
    hide Holds, RowsFit, ReadRows, EventsOf, SameColumns, InputsAccepted, HasValueColumn, Available;
    var c := Collection([], {}, map[]);
    var columns: seq<Column> := [];
    var schemaSet := false;
    NothingCollected(references, results);
    for j := 0 to |references|
      invariant InputsAccepted(references[..j], results)
      invariant Holds(c, EventsOf(references[..j], results))
      invariant schemaSet <==> j > 0
      invariant j > 0 ==> HasColumns(results, references[0]) && columns == KeyColumns(results[references[0]])
      invariant j == 0 ==> columns == []
    {
      var reference := references[j];
      if reference !in results {
        Rejected(references, results, j);
        return Failure(Unavailable(reference));
      }
      var q := results[reference];
      if !HasValueColumn(q) {
        Rejected(references, results, j);
        return Failure(NoValueColumn(reference));
      }
      ValueColumnExists(q);
      var candidate := KeyColumns(q);
      if !schemaSet {
        columns := candidate;
        schemaSet := true;
      } else {
        var same: bool := SameResultColumns(columns, candidate);
        if !same {
          DifferentFromFirst(references, results, j);
          return Failure(DifferentColumns);
        }
      }
      var read: Result<Collection, InputError> := ReadInput(reference, q, c, EventsOf(references[..j], results));
      if read.Failure? {
        Rejected(references, results, j);
        return Failure(read.error);
      }
      c := read.value;
      AcceptOneMore(references, results, j);
    }
    assert references[..|references|] == references;
    AllCollected(references, results, c);
    var values := FillAll(c.keys, c.values, references, results, zeros);
    AlignmentCollected(references, results, zeros, c, values, columns);
    r := Success(Aligned(c.keys, values, columns));
  }

  lemma ValueColumnExists(q: QueryResult)
    requires HasValueColumn(q)
    ensures q.columns != []
  {
  }

  /** The rows of all inputs in the order they are read. */
  ghost function EventsOf(references: seq<string>, results: QueryResults): seq<Event>
    requires InputsAccepted(references, results)
  {
    ReadInputs(references, Gather(references, results))
  }

  lemma NothingCollected(references: seq<string>, results: QueryResults)
    ensures InputsAccepted(references[..0], results)
    ensures Holds(Collection([], {}, map[]), EventsOf(references[..0], results))
  {
  }

  lemma AllCollected(references: seq<string>, results: QueryResults, c: Collection)
    requires InputsAccepted(references, results) && Holds(c, EventsOf(references, results))
    ensures Available(references, results) && DistinctTexts(c.keys)
    ensures forall text :: HasKey(c.keys, text) <==> text in c.values
  {
    hide Alignable;
    KeysAreThoseSeen(EventsOf(references, results));
  }

  lemma AlignmentCollected(references: seq<string>, results: QueryResults, zeros: set<string>, c: Collection,
                           values: map<string, Inputs>, columns: seq<Column>)
    requires InputsAccepted(references, results) && Holds(c, EventsOf(references, results))
    requires values == map text | text in c.values :: FillRow(c.values[text], references, Gather(references, results), zeros)
    requires references == [] ==> columns == []
    requires references != [] ==> HasColumns(results, references[0]) && columns == KeyColumns(results[references[0]])
    ensures Aligned(c.keys, values, columns) == Align(references, Gather(references, results), zeros)
  {
    hide FillRow, FirstKeys, Collected;
  }

  predicate HasColumns(results: QueryResults, name: string)
  {
    name in results && results[name].columns != []
  }

  /** One input that is missing or cannot be read is enough to refuse all. */
  lemma Rejected(references: seq<string>, results: QueryResults, j: nat)
    requires j < |references|
    requires references[j] in results ==>
               !HasValueColumn(results[references[j]]) || !RowsFit(results[references[j]], results[references[j]].rows)
    ensures !InputsAccepted(references, results)
  {
    hide HasValueColumn, RowsFit;
    assert references[j] in references;
    if Available(references, results) {
      assert Gather(references, results)[j] in Gather(references, results);
    }
  }

  lemma DifferentFromFirst(references: seq<string>, results: QueryResults, j: nat)
    requires 0 < j < |references| && HasColumns(results, references[0]) && HasColumns(results, references[j])
    requires !SameColumns(KeyColumns(results[references[0]]), KeyColumns(results[references[j]]))
    ensures !InputsAccepted(references, results)
  {
    if Available(references, results) {
      assert Gather(references, results)[j] in Gather(references, results);
    }
  }

  lemma AcceptOneMore(references: seq<string>, results: QueryResults, j: nat)
    requires j < |references| && InputsAccepted(references[..j], results) && references[j] in results
    requires HasValueColumn(results[references[j]]) && RowsFit(results[references[j]], results[references[j]].rows)
    requires j > 0 ==> HasColumns(results, references[0]) && SameColumns(KeyColumns(results[references[0]]), KeyColumns(results[references[j]]))
    ensures InputsAccepted(references[..j + 1], results) && Available(references[..j + 1], results)
    ensures HasColumns(results, references[0])
    ensures EventsOf(references[..j + 1], results) ==
              EventsOf(references[..j], results) + ReadRows(references[j], results[references[j]], results[references[j]].rows)
  {
    hide RowsFit, ReadRows;
    var more := Gather(references[..j + 1], results);
    assert references[..j + 1] == references[..j] + [references[j]];
    assert more == Gather(references[..j], results) + [results[references[j]]];
    assert references[..j + 1][..j] == references[..j] && more[..j] == Gather(references[..j], results);
  }
}
