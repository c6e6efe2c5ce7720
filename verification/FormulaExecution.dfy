/** Runs the formulas of a plan over query results, in whatever order their inputs become
    available. */
module FormulaExecution {
  import opened FormulaSyntax
  import opened FormulaParser
  import opened FormulaReader
  import opened FormulaTyping
  import opened FormulaEvaluation
  import opened FormulaSoundness
  import opened FormulaCanonical
  import opened FormulaAnalysis
  import opened FormulaSet
  import opened Alignment
  import opened FormulaInputs
  import opened Fields
  import opened Results
  import opened Strings

  datatype ExecutionError =
    | Analysis(analysis: AnalysisError)
    | PlanChanged(name: string)
    | Input(input: InputError)
    | Evaluation(evaluation: EvalError)
    | NoProgram(name: string)
    | NoProgress

  // ----- bindings of concrete results -----

  function ContextName(c: FieldContext): string
  {
    match c
    case Resource => "resource"
    case Attribute => "attribute"
    case Span => "span"
    case Log => "log"
    case Body => "body"
    case Scope => "scope"
    case Metric => "metric"
    case Label => "label"
  }

  function ColumnText(c: Column): string
  {
    c.name + ":" + (if c.field.None? then "" else ContextName(c.field.value.context) + "." + c.field.value.name) + ";"
  }

  function ColumnsText(columns: seq<Column>): string
  {
    if columns == [] then "" else ColumnsText(columns[..|columns| - 1]) + ColumnText(columns[|columns| - 1])
  }

  function SeriesSignature(q: QueryResult): string
  {
    if |q.columns| < 2 then "" else ColumnsText(q.columns[..|q.columns| - 1])
  }

  /** The signature of a result lists its key columns in order, each with its name and, if it groups
      by a field, the context and name of the field. */
  lemma SignatureLists(q: QueryResult, before: seq<Column>, c: Column, v: Column)
    requires q.columns == before + [c, v]
    ensures var others := if before == [] then "" else SeriesSignature(q.(columns := before + [v]));
            && (c.field == None ==> SeriesSignature(q) == others + (c.name + ":" + "" + ";"))
            && (c.field.Some? ==>
                  var word := match c.field.value.context
                              case Resource => "resource" case Attribute => "attribute" case Span => "span" case Log => "log"
                              case Body => "body" case Scope => "scope" case Metric => "metric" case Label => "label";
                  SeriesSignature(q) == others + (c.name + ":" + (word + "." + c.field.value.name) + ";"))
  {
    LastColumn(before, c);
    SignatureIs(q, before + [c], v);
    if before != [] {
      SignatureIs(q.(columns := before + [v]), before, v);
    }
    hide ColumnsText, SeriesSignature;
    if before == [] {
      assert "" + ColumnText(c) == ColumnText(c);
    }
  }

  lemma LastColumn(before: seq<Column>, c: Column)
    ensures ColumnsText(before + [c]) == ColumnsText(before) + ColumnText(c) && ColumnsText([]) == ""
  {
    hide ColumnText;
    assert (before + [c])[..|before|] == before;
  }

  lemma SignatureIs(q: QueryResult, keys: seq<Column>, v: Column)
    requires q.columns == keys + [v] && keys != []
    ensures SeriesSignature(q) == ColumnsText(keys)
  {
    hide ColumnsText;
    assert q.columns[..|q.columns| - 1] == keys;
  }

  function ResultBinding(q: QueryResult): Binding { Binding(ResultType(q), SeriesSignature(q)) }

  /** Query results by name; of two with one name the later is kept. */
  function ByName(queryResults: seq<QueryResult>): QueryResults
  {
    if queryResults == [] then map[]
    else
      var last := |queryResults| - 1;
      ByName(queryResults[..last])[queryResults[last].name := queryResults[last]]
  }

  predicate IsLastNamed(queryResults: seq<QueryResult>, name: string, i: nat)
  {
    i < |queryResults| && queryResults[i].name == name && forall k :: i < k < |queryResults| ==> queryResults[k].name != name
  }

  predicate SomeNamed(queryResults: seq<QueryResult>, name: string)
  {
    exists i :: 0 <= i < |queryResults| && queryResults[i].name == name
  }

  /** A name stands for the last result of that name. */
  lemma {:induction false} NamedResults(queryResults: seq<QueryResult>, name: string, i: nat)
    ensures name in ByName(queryResults) <==> SomeNamed(queryResults, name)
    ensures IsLastNamed(queryResults, name, i) ==> name in ByName(queryResults) && ByName(queryResults)[name] == queryResults[i]
    decreases |queryResults|
  {
    if queryResults != [] {
      var last := |queryResults| - 1;
      var before := queryResults[..last];
      NamedResults(before, name, i);
      assert ByName(queryResults) == ByName(before)[queryResults[last].name := queryResults[last]];
      hide ByName;
      if SomeNamed(before, name) {
        var k :| 0 <= k < |before| && before[k].name == name;
        assert queryResults[k].name == name;
      }
      if SomeNamed(queryResults, name) && queryResults[last].name != name {
        var k :| 0 <= k < |queryResults| && queryResults[k].name == name;
        assert before[k].name == name;
      }
      if IsLastNamed(queryResults, name, i) && i < last {
        assert queryResults[last].name != name && IsLastNamed(before, name, i);
      }
    }
  }

  function ResultBindings(results: QueryResults): Environment
  {
    map name | name in results :: ResultBinding(results[name])
  }

  /** Every result is bound to its signature and to the kind and unit of its last column, which is a
      number unless the column says otherwise. */
  lemma BindingsAreTyped(results: QueryResults, name: string)
    requires name in results
    ensures name in ResultBindings(results)
    ensures var (q, b) := (results[name], ResultBindings(results)[name]);
            && b.signature == SeriesSignature(q)
            && (q.columns == [] ==> b.typ == StaticType(Number, ""))
            && (q.columns != [] ==>
                  var c := q.columns[|q.columns| - 1];
                  b.typ.unit == c.unit && (c.kind == None ==> b.typ.kind == Number) && (c.kind.Some? ==> b.typ.kind == c.kind.value))
  {
    hide SeriesSignature;
  }

  // ----- the result of one formula -----

  /** The value column is never part of a key, so its text does not matter. */
  function ValueCell(v: Value): Cell
  {
    Cell("", if v.missing then NullValue else if v.typ.kind == Bool then BoolValue(v.truth) else NumberValue(v.number, v.finite))
  }

  /** One row for each key, unless some evaluation fails. */
  function RowsOf(root: Node, env: Environment, keys: seq<Key>, values: map<string, Inputs>): Result<seq<Row>, EvalError>
    requires forall key :: key in keys ==> key.text in values
  {
    if keys == [] then Success([])
    else
      var last := |keys| - 1;
      var rows := RowsOf(root, env, keys[..last], values);
      if rows.Failure? then rows
      else
        assert keys[last] in keys;
        var v := Meaning(root, env, values[keys[last].text]);
        if v.Failure? then Failure(v.error) else Success(rows.value + [keys[last].cells + [ValueCell(v.value)]])
  }

  lemma AlignedKeysHaveValues(references: seq<string>, inputs: seq<QueryResult>, zeros: set<string>)
    requires |references| == |inputs| && Alignable(inputs)
    ensures var a := Align(references, inputs, zeros); forall key :: key in a.keys ==> key.text in a.values
  {
    hide FirstKeys, Collected, FillRow, ReadInputs;
    var a := Align(references, inputs, zeros);
    KeysAreThoseSeen(ReadInputs(references, inputs));
    forall key | key in a.keys ensures key.text in a.values {
      assert HasKey(a.keys, key.text);
    }
  }

  ghost function Names(root: Node): seq<string> { DistinctFrom({}, References(root)) }

  /** The result of a formula over given results, evaluated directly. */
  ghost function RunFormula(name: string, root: Node, env: Environment, results: QueryResults, zeros: set<string>)
    : Option<QueryResult>
  {
    if !InputsAccepted(Names(root), results) || Infer(root, env).Failure? then None
    else
      var inputs := Gather(Names(root), results);
      var a := Align(Names(root), inputs, zeros);
      AlignedKeysHaveValues(Names(root), inputs, zeros);
      var rows := RowsOf(root, env, a.keys, a.values);
      var typ := Infer(root, env).value.typ;
      if rows.Failure? then None
      else Some(QueryResult(name, a.columns + [Column("value", None, Some(typ.kind), typ.unit)], rows.value))
  }

  /** What a result cell holds of a value: null for Missing, else the truth or the number. */
  predicate ShowsValue(cell: CellValue, v: Value)
  {
    if v.missing then cell == NullValue
    else if v.typ.kind == Bool then cell == BoolValue(v.truth)
    else cell == NumberValue(v.number, v.finite)
  }

  lemma {:induction false} RowsShowValues(root: Node, env: Environment, keys: seq<Key>, values: map<string, Inputs>)
    requires forall key :: key in keys ==> key.text in values
    requires RowsOf(root, env, keys, values).Success?
    ensures var rows := RowsOf(root, env, keys, values).value;
            && |rows| == |keys|
            && forall k :: 0 <= k < |keys| ==> RowShows(rows[k], keys[k], Meaning(root, env, values[keys[k].text]))
  {
    hide Meaning;
    if keys != [] {
      var last := |keys| - 1;
      assert keys[last] in keys;
      RowsShowValues(root, env, keys[..last], values);
    }
  }

  /** The cells of a key, and the value behind them. */
  predicate RowShows(row: Row, key: Key, v: Evaluated)
  {
    v.Success? && |row| == |key.cells| + 1 && row[..|key.cells|] == key.cells && ShowsValue(row[|key.cells|].value, v.value)
  }

  /** The result of a formula has the key columns of its inputs and a value column of its inferred
      type, and for every aligned key one row with the value of the formula there. */
  lemma ResultIsEvaluated(name: string, root: Node, env: Environment, types: map<Node, Inference>, results: QueryResults,
                          zeros: set<string>)
    requires RunFormula(name, root, env, results, zeros).Some? && Typed(root, env, types) && Names(root) != []
    ensures var q := RunFormula(name, root, env, results, zeros).value;
            var first := results[Names(root)[0]];
            var a := Align(Names(root), Gather(Names(root), results), zeros);
            && q.name == name && first.columns != [] && root in types
            && q.columns == first.columns[..|first.columns| - 1]
                            + [Column("value", None, Some(types[root].typ.kind), types[root].typ.unit)]
            && |q.rows| == |a.keys|
            && (forall k :: 0 <= k < |a.keys| ==> a.keys[k].text in a.values)
            && forall k :: 0 <= k < |a.keys| ==> RowShows(q.rows[k], a.keys[k], Evaluate(root, types, a.values[a.keys[k].text]))
  {
    hide RowShows, Evaluate, Meaning, Align, Alignable, Infer;
    var inputs := Gather(Names(root), results);
    var a := Align(Names(root), inputs, zeros);
    AlignedColumns(Names(root), inputs, zeros);
    AlignedKeysHaveValues(Names(root), inputs, zeros);
    RowsShowValues(root, env, a.keys, a.values);
    assert root in types && Infer(root, env) == Success(types[root]);
    forall k | 0 <= k < |a.keys|
      ensures a.keys[k].text in a.values
              && Meaning(root, env, a.values[a.keys[k].text]) == Evaluate(root, types, a.values[a.keys[k].text])
    {
      assert a.keys[k] in a.keys;
      EvaluateIsMeaning(root, env, types, a.values[a.keys[k].text]);
    }
  }

  lemma AlignedColumns(references: seq<string>, inputs: seq<QueryResult>, zeros: set<string>)
    requires |references| == |inputs| && Alignable(inputs) && inputs != []
    ensures inputs[0].columns != []
    ensures Align(references, inputs, zeros).columns == inputs[0].columns[..|inputs[0].columns| - 1]
  {
    hide ReadInputs, FirstKeys, Collected, FillRow;
    assert inputs[0] in inputs;
  }

  /** A formula only looks at the results it refers to. */
  lemma RunFormulaAgrees(name: string, root: Node, env: Environment, a: QueryResults, b: QueryResults, zeros: set<string>)
    requires Available(Names(root), a) && Available(Names(root), b)
    requires forall r :: r in Names(root) ==> a[r] == b[r]
    ensures RunFormula(name, root, env, a, zeros) == RunFormula(name, root, env, b, zeros)
  {
    assert Gather(Names(root), a) == Gather(Names(root), b);
  }

  method RunProgram(name: string, program: TypedFormula, ghost env: Environment, results: QueryResults, zeros: set<string>)
    returns (r: Result<QueryResult, ExecutionError>)
    requires Describes(program, program.root, env)
    ensures r.Success? <==> RunFormula(name, program.root, env, results, zeros).Some?
    ensures r.Success? ==> r.value == RunFormula(name, program.root, env, results, zeros).value
    ensures r.Failure? ==> r.error.Input? || r.error.Evaluation?
  {
    hide Evaluate, Meaning, Infer, Align, References, DistinctFrom, ValueCell;
    assert Infer(program.root, env) == Success(program.types[program.root]);
    var inputs: Result<Aligned, InputError> := FormulaInputs.FormulaInputs(program.references, results, zeros);
    if inputs.Failure? {
      return Failure(Input(inputs.error));
    }
    var a := inputs.value;
    AlignedKeysHaveValues(program.references, Gather(program.references, results), zeros);
    var rows: seq<Row> := [];
    for k := 0 to |a.keys|
      invariant RowsOf(program.root, env, a.keys[..k], a.values) == Success(rows)
    {
      assert a.keys[k] in a.keys && a.keys[..k + 1][..k] == a.keys[..k];
      EvaluateIsMeaning(program.root, env, program.types, a.values[a.keys[k].text]);
      var value: Evaluated := Evaluate(program.root, program.types, a.values[a.keys[k].text]);
      if value.Failure? {
        RowsOfFails(program.root, env, a.keys, a.values, k + 1);
        return Failure(Evaluation(value.error));
      }
      rows := rows + [a.keys[k].cells + [ValueCell(value.value)]];
    }
    assert a.keys[..|a.keys|] == a.keys;
    var columns := a.columns + [Column("value", None, Some(program.typ.kind), program.typ.unit)];
    r := Success(QueryResult(name, columns, rows));
  }

  lemma {:induction false} RowsOfFails(root: Node, env: Environment, keys: seq<Key>, values: map<string, Inputs>, k: nat)
    requires forall key :: key in keys ==> key.text in values
    requires k <= |keys| && RowsOf(root, env, keys[..k], values).Failure?
    ensures RowsOf(root, env, keys, values).Failure?
    decreases |keys|
  {
    if k == |keys| {
      assert keys[..k] == keys;
    } else {
      assert keys[..|keys| - 1][..k] == keys[..k];
      RowsOfFails(root, env, keys[..|keys| - 1], values, k);
    }
  }

  // ----- all formulas -----

  datatype FormulaPlan = FormulaPlan(formulas: seq<Formula>, planned: map<string, seq<Token>>, zeros: set<string>)

  /** The results of all formulas over `base`: each is what evaluating it directly over all
      of them gives. */
  ghost predicate IsExecution(parsed: ParsedSet, env: Environment, base: QueryResults, zeros: set<string>, all: QueryResults)
  {
    && all.Keys == base.Keys + parsed.Keys
    && (forall name :: name in base ==> all[name] == base[name])
    && forall f :: f in parsed ==> RunFormula(f, parsed[f].root, env, all, zeros) == Some(all[f])
  }

  ghost predicate PlanHolds(parsed: ParsedSet, planned: map<string, seq<Token>>)
  {
    forall name :: name in planned ==> name in parsed && planned[name] == Canonical(parsed[name].root)
  }

  lemma SameNames(root: Node)
    ensures forall r :: r in Names(root) <==> r in References(root)
  {
    DistinctFromMembers({}, References(root));
  }

  lemma {:induction false} DistinctFromMembers(seen: set<string>, names: seq<string>)
    ensures forall r :: r in DistinctFrom(seen, names) <==> r in names && r !in seen
    decreases |names|
  {
    if names != [] {
      DistinctFromMembers(seen, names[1..]);
      DistinctFromMembers(seen + {names[0]}, names[1..]);
      assert forall r :: r in names <==> r == names[0] || r in names[1..];
    }
  }

  /** Formulas finished so far: their results, and those of the queries, are final. */
  ghost predicate Sofar(parsed: ParsedSet, env: Environment, base: QueryResults, zeros: set<string>, results: QueryResults,
                        waiting: set<string>)
  {
    && waiting <= parsed.Keys
    && results.Keys == base.Keys + (parsed.Keys - waiting)
    && (forall name :: name in base ==> results[name] == base[name])
    && forall f :: f in parsed && f !in waiting ==>
         && Available(Names(parsed[f].root), results)
         && RunFormula(f, parsed[f].root, env, results, zeros) == Some(results[f])
  }

  lemma FinishOne(parsed: ParsedSet, env: Environment, base: QueryResults, zeros: set<string>, results: QueryResults,
                  waiting: set<string>, f: string, result: QueryResult)
    requires Sofar(parsed, env, base, zeros, results, waiting) && base.Keys !! parsed.Keys
    requires f in waiting && Available(Names(parsed[f].root), results)
    requires RunFormula(f, parsed[f].root, env, results, zeros) == Some(result)
    ensures Sofar(parsed, env, base, zeros, results[f := result], waiting - {f})
  {
    hide RunFormula, Names;
    var more := results[f := result];
    forall g | g in parsed && g !in waiting - {f}
      ensures Available(Names(parsed[g].root), more)
      ensures RunFormula(g, parsed[g].root, env, more, zeros) == Some(more[g])
    {
      RunFormulaAgrees(g, parsed[g].root, env, results, more, zeros);
    }
  }

  /** Whatever has been computed is part of every execution. */
  lemma {:induction false} SofarIsPart(parsed: ParsedSet, env: Environment, base: QueryResults, zeros: set<string>,
                                       results: QueryResults, waiting: set<string>, all: QueryResults, order: seq<string>, n: nat)
    requires Sofar(parsed, env, base, zeros, results, waiting) && IsExecution(parsed, env, base, zeros, all)
    requires OrdersAll(parsed, order) && n <= |order|
    ensures forall i :: 0 <= i < n && order[i] !in waiting ==> results[order[i]] == all[order[i]]
  {
    hide RunFormula, Names;
    if n > 0 {
      SofarIsPart(parsed, env, base, zeros, results, waiting, all, order, n - 1);
      var f := order[n - 1];
      if f !in waiting {
        assert f in order;
        SameNames(parsed[f].root);
        forall r | r in Names(parsed[f].root) ensures r in all && results[r] == all[r] {
          if r in parsed { assert Edge(parsed, f, r); }
        }
        RunFormulaAgrees(f, parsed[f].root, env, results, all, zeros);
      }
    }
  }

  /** The results of an ordered set of formulas are unique, whatever order they are
      computed in. */
  lemma ExecutionIsUnique(parsed: ParsedSet, env: Environment, base: QueryResults, zeros: set<string>, a: QueryResults,
                          b: QueryResults, order: seq<string>)
    requires IsExecution(parsed, env, base, zeros, a) && IsExecution(parsed, env, base, zeros, b)
    requires OrdersAll(parsed, order) && base.Keys !! parsed.Keys
    ensures a == b
  {
    hide RunFormula, Names;
    assert Sofar(parsed, env, base, zeros, a, {}) by {
      forall f | f in parsed ensures Available(Names(parsed[f].root), a) { RunsOnAvailable(f, parsed[f].root, env, a, zeros); }
    }
    SofarIsPart(parsed, env, base, zeros, a, {}, b, order, |order|);
  }

  lemma RunsOnAvailable(f: string, root: Node, env: Environment, results: QueryResults, zeros: set<string>)
    requires RunFormula(f, root, env, results, zeros).Some?
    ensures Available(Names(root), results)
  {
  }

  /** While formulas wait, one of them has all its inputs. */
  lemma {:induction false} SomeReady(parsed: ParsedSet, env: Environment, base: QueryResults, zeros: set<string>, results: QueryResults,
                                     waiting: set<string>, order: seq<string>, n: nat) returns (f: string)
    requires Sofar(parsed, env, base, zeros, results, waiting)
    requires OrdersAll(parsed, order) && n < |order| && order[n] in waiting
    requires forall g :: g in parsed ==> forall r :: r in References(parsed[g].root) ==> r in base || r in parsed
    ensures f in waiting && Available(Names(parsed[f].root), results)
    decreases n
  {
    hide RunFormula, Names;
    if i: nat :| i < n && order[i] in waiting {
      f := SomeReady(parsed, env, base, zeros, results, waiting, order, i);
    } else {
      f := order[n];
      SameNames(parsed[f].root);
      forall r | r in Names(parsed[f].root) ensures r in results {
        if r in parsed { assert Edge(parsed, f, r); }
      }
    }
  }

  /** A formula that fails on final inputs fails in every execution. */
  lemma FailureIsFinal(parsed: ParsedSet, env: Environment, base: QueryResults, zeros: set<string>, results: QueryResults,
                       waiting: set<string>, order: seq<string>, f: string)
    requires Sofar(parsed, env, base, zeros, results, waiting) && OrdersAll(parsed, order)
    requires f in parsed && Available(Names(parsed[f].root), results)
    requires RunFormula(f, parsed[f].root, env, results, zeros).None?
    ensures !exists all :: IsExecution(parsed, env, base, zeros, all)
  {
    hide RunFormula, Names;
    forall all | IsExecution(parsed, env, base, zeros, all) ensures false {
      SofarIsPart(parsed, env, base, zeros, results, waiting, all, order, |order|);
      forall r | r in Names(parsed[f].root) ensures r in all && results[r] == all[r] {
        if r in parsed { assert r in order; }
      }
      RunFormulaAgrees(f, parsed[f].root, env, results, all, zeros);
    }
  }

  function NamesOf(formulas: seq<Formula>): set<string> { set f | f in formulas :: f.name }

  predicate UniqueNames(formulas: seq<Formula>)
  {
    forall i, j :: 0 <= i < j < |formulas| ==> formulas[i].name != formulas[j].name
  }

  /** Results and finished formulas while `waiting` are still to run. */
  datatype Worklist = Worklist(results: QueryResults, byName: QueryResults)

  ghost predicate Keeps(w: Worklist, parsed: ParsedSet, env: Environment, base: QueryResults, zeros: set<string>,
                        waiting: set<string>)
  {
    && Sofar(parsed, env, base, zeros, w.results, waiting)
    && w.byName.Keys == parsed.Keys - waiting
    && forall f :: f in w.byName ==> w.byName[f] == w.results[f]
  }

  method DependenciesReady(references: seq<string>, results: QueryResults) returns (ready: bool)
    ensures ready <==> Available(references, results)
  {
    for i := 0 to |references|
      invariant forall k :: 0 <= k < i ==> references[k] in results
    {
      if references[i] !in results {
        assert references[i] in references;
        return false;
      }
    }
    ready := true;
  }

  /** Runs one formula whose inputs are there. */
  method RunOne(f: Formula, program: TypedFormula, w: Worklist, zeros: set<string>, ghost parsed: ParsedSet,
                ghost env: Environment, ghost base: QueryResults, ghost order: seq<string>, ghost waiting: set<string>)
    returns (r: Result<Worklist, ExecutionError>)
    requires Keeps(w, parsed, env, base, zeros, waiting) && OrdersAll(parsed, order) && base.Keys !! parsed.Keys
    requires f.name in waiting && f.name in parsed && Describes(program, parsed[f.name].root, env)
    requires Available(program.references, w.results)
    ensures r.Success? ==> Keeps(r.value, parsed, env, base, zeros, waiting - {f.name})
    ensures r.Failure? ==> (r.error.Input? || r.error.Evaluation?) && !exists all :: IsExecution(parsed, env, base, zeros, all)
  {
    hide Typed, Canonical, References, DistinctFrom, RunFormula, Sofar, IsExecution;
    var result: Result<QueryResult, ExecutionError> := RunProgram(f.name, program, env, w.results, zeros);
    if result.Failure? {
      FailureIsFinal(parsed, env, base, zeros, w.results, waiting, order, f.name);
      return Failure(result.error);
    }
    FinishOne(parsed, env, base, zeros, w.results, waiting, f.name, result.value);
    r := Success(Worklist(w.results[f.name := result.value], w.byName[f.name := result.value]));
  }

  /** One pass over the formulas that still wait. */
  method Pass(pending: seq<Formula>, programs: map<string, TypedFormula>, w: Worklist, zeros: set<string>,
              ghost parsed: ParsedSet, ghost env: Environment, ghost base: QueryResults, ghost order: seq<string>)
    returns (r: Result<(Worklist, seq<Formula>, bool), ExecutionError>)
    requires Keeps(w, parsed, env, base, zeros, NamesOf(pending)) && OrdersAll(parsed, order) && base.Keys !! parsed.Keys
    requires programs.Keys == parsed.Keys && forall f :: f in parsed ==> Describes(programs[f], parsed[f].root, env)
    requires UniqueNames(pending)
    ensures r.Success? ==>
      && Keeps(r.value.0, parsed, env, base, zeros, NamesOf(r.value.1)) && UniqueNames(r.value.1)
      && (r.value.2 ==> |r.value.1| < |pending|)
      && (!r.value.2 ==> r.value.0 == w && forall i :: 0 <= i < |pending| ==> IsBlocked(parsed, w.results, pending[i]))
    ensures r.Failure? ==> (r.error.Input? || r.error.Evaluation?) && !exists all :: IsExecution(parsed, env, base, zeros, all)
  {
    hide Keeps, Available, Describes, Names, UniqueNames, NamesOf, IsExecution, OrdersAll;
    var current, remaining, progress := w, [], false;
    assert pending[0..] == pending && [] + pending == pending;
    for k := 0 to |pending|
      invariant Keeps(current, parsed, env, base, zeros, NamesOf(remaining + pending[k..]))
      invariant UniqueNames(remaining + pending[k..])
      invariant progress ==> |remaining| < k
      invariant !progress ==> current == w && remaining == pending[..k]
      invariant !progress ==> forall i :: 0 <= i < k ==> IsBlocked(parsed, w.results, pending[i])
    {
      var f := pending[k];
      ghost var waiting := NamesOf(remaining + pending[k..]);
      Removal(remaining, pending, k);
      WaitingIsParsed(current, parsed, env, base, zeros, waiting, f.name);
      if f.name !in programs {
        return Failure(NoProgram(f.name));
      }
      var program := programs[f.name];
      NamesAreReferences(program, parsed[f.name].root, env);
      var ready: bool := DependenciesReady(program.references, current.results);
      if !ready {
        remaining := remaining + [f];
      } else {
        var one: Result<Worklist, ExecutionError> := RunOne(f, program, current, zeros, parsed, env, base, order, waiting);
        if one.Failure? {
          return Failure(one.error);
        }
        current := one.value;
        progress := true;
      }
    }
    assert remaining + pending[|pending|..] == remaining;
    r := Success((current, remaining, progress));
  }

  /** The formula waits for an input that is not there. */
  ghost predicate IsBlocked(parsed: ParsedSet, results: QueryResults, f: Formula)
  {
    f.name in parsed && !Available(Names(parsed[f.name].root), results)
  }

  lemma WaitingIsParsed(w: Worklist, parsed: ParsedSet, env: Environment, base: QueryResults, zeros: set<string>,
                        waiting: set<string>, f: string)
    requires Keeps(w, parsed, env, base, zeros, waiting) && f in waiting
    ensures f in parsed
  {
  }

  lemma NamesAreReferences(program: TypedFormula, root: Node, env: Environment)
    requires Describes(program, root, env)
    ensures program.references == Names(root)
  {
  }

  lemma Removal(remaining: seq<Formula>, pending: seq<Formula>, k: nat)
    requires k < |pending| && UniqueNames(remaining + pending[k..])
    ensures remaining + [pending[k]] + pending[k + 1..] == remaining + pending[k..]
    ensures UniqueNames(remaining + pending[k + 1..])
    ensures pending[k].name in NamesOf(remaining + pending[k..])
    ensures NamesOf(remaining + pending[k + 1..]) == NamesOf(remaining + pending[k..]) - {pending[k].name}
  {
    var all, fewer := remaining + pending[k..], remaining + pending[k + 1..];
    assert all == remaining + [pending[k]] + pending[k + 1..];
    assert all[|remaining|] == pending[k];
    forall f | f in fewer ensures f in all && f.name != pending[k].name {
      var i :| 0 <= i < |fewer| && fewer[i] == f;
      if i < |remaining| { assert all[i] == f; } else { assert all[i + 1] == f; }
    }
    forall i, j | 0 <= i < j < |fewer| ensures fewer[i].name != fewer[j].name {
      var i', j' := if i < |remaining| then i else i + 1, if j < |remaining| then j else j + 1;
      assert all[i'] == fewer[i] && all[j'] == fewer[j];
    }
    forall f | f in all && f.name != pending[k].name ensures f in fewer {
      var i :| 0 <= i < |all| && all[i] == f;
      if i < |remaining| { assert fewer[i] == f; } else { assert fewer[i - 1] == f; }
    }
  }

  /** Repeats passes until nothing waits. */
  method RunAll(formulas: seq<Formula>, programs: map<string, TypedFormula>, zeros: set<string>, base: QueryResults,
                ghost parsed: ParsedSet, ghost env: Environment, ghost order: seq<string>)
    returns (r: Result<Worklist, ExecutionError>)
    requires OrdersAll(parsed, order) && base.Keys !! parsed.Keys && parsed.Keys == NamesOf(formulas) && UniqueNames(formulas)
    requires programs.Keys == parsed.Keys && forall f :: f in parsed ==> Describes(programs[f], parsed[f].root, env)
    requires forall g :: g in parsed ==> forall r :: r in References(parsed[g].root) ==> r in base || r in parsed
    ensures r.Success? ==> Keeps(r.value, parsed, env, base, zeros, {})
    ensures r.Failure? ==> (r.error.Input? || r.error.Evaluation?) && !exists all :: IsExecution(parsed, env, base, zeros, all)
  {
    hide Keeps, Describes, Names, UniqueNames, IsExecution, OrdersAll;
    var w, pending := Worklist(base, map[]), formulas;
    NothingDone(parsed, env, base, zeros);
    while |pending| != 0
      invariant Keeps(w, parsed, env, base, zeros, NamesOf(pending)) && UniqueNames(pending)
      decreases |pending|
    {
      var pass: Result<(Worklist, seq<Formula>, bool), ExecutionError> :=
        Pass(pending, programs, w, zeros, parsed, env, base, order);
      if pass.Failure? {
        return Failure(pass.error);
      }
      if !pass.value.2 {
        NotAllBlocked(parsed, env, base, zeros, w, pending, order);
        return Failure(NoProgress);
      }
      w, pending := pass.value.0, pass.value.1;
    }
    assert NamesOf(pending) == {};
    r := Success(w);
  }

  lemma NothingDone(parsed: ParsedSet, env: Environment, base: QueryResults, zeros: set<string>)
    requires base.Keys !! parsed.Keys
    ensures Keeps(Worklist(base, map[]), parsed, env, base, zeros, parsed.Keys)
  {
    hide RunFormula, Names;
  }

  lemma NotAllBlocked(parsed: ParsedSet, env: Environment, base: QueryResults, zeros: set<string>, w: Worklist,
                      pending: seq<Formula>, order: seq<string>)
    requires Keeps(w, parsed, env, base, zeros, NamesOf(pending)) && OrdersAll(parsed, order) && pending != []
    requires forall g :: g in parsed ==> forall r :: r in References(parsed[g].root) ==> r in base || r in parsed
    ensures !forall i :: 0 <= i < |pending| ==> IsBlocked(parsed, w.results, pending[i])
  {
    hide Names, RunFormula;
    assert pending[0].name in NamesOf(pending);
    assert pending[0].name in order;
    var n: nat :| n < |order| && order[n] == pending[0].name;
    var f := SomeReady(parsed, env, base, zeros, w.results, NamesOf(pending), order, n);
    var i :| 0 <= i < |pending| && pending[i].name == f;
    assert !IsBlocked(parsed, w.results, pending[i]);
  }

  method PlanUnchanged(planned: map<string, seq<Token>>, programs: map<string, TypedFormula>) returns (r: Result<(), ExecutionError>)
    ensures r.Success? <==> forall name :: name in planned ==> name in programs && planned[name] == programs[name].canonical
    ensures r.Failure? ==> r.error.PlanChanged?
  {
    var names := planned.Keys;
    while names != {}
      invariant names <= planned.Keys
      invariant forall name :: name in planned && name !in names ==> name in programs && planned[name] == programs[name].canonical
      decreases |names|
    {
      var name :| name in names;
      if name !in programs || planned[name] != programs[name].canonical {
        return Failure(PlanChanged(name));
      }
      names := names - {name};
    }
    r := Success(());
  }

  /** The plan's formulas execute over the query results, to these results. */
  ghost predicate Executes(plan: FormulaPlan, queryResults: seq<QueryResult>, s: Environment, all: QueryResults)
  {
    var base := ByName(queryResults);
    var bindings := ResultBindings(base);
    && Acceptable(plan.formulas, bindings)
    && PlanHolds(ParsedOf(plan.formulas), plan.planned)
    && Solves(ParsedOf(plan.formulas), bindings, s)
    && IsExecution(ParsedOf(plan.formulas), bindings + s, base, plan.zeros, all)
  }

  method IndexResults(queryResults: seq<QueryResult>) returns (base: QueryResults, bindings: Environment)
    ensures base == ByName(queryResults) && bindings == ResultBindings(base)
  {
    hide ResultBinding;
    base, bindings := map[], map[];
    for i := 0 to |queryResults|
      invariant base == ByName(queryResults[..i]) && bindings == ResultBindings(base)
    {
      assert queryResults[..i + 1][..i] == queryResults[..i];
      base := base[queryResults[i].name := queryResults[i]];
      bindings := bindings[queryResults[i].name := ResultBinding(queryResults[i])];
    }
    assert queryResults[..|queryResults|] == queryResults;
  }

  /** Succeeds exactly when the formulas are accepted over the results, are those planned,
      and all can be evaluated; the answers are in plan order, and no formula is ever left
      without its inputs. */
  method EvaluateFormulas(plan: FormulaPlan, queryResults: seq<QueryResult>) returns (r: Result<seq<QueryResult>, ExecutionError>)
    ensures r.Success? <==> exists s, all :: Executes(plan, queryResults, s, all)
    ensures r.Success? ==> exists s, all :: Executes(plan, queryResults, s, all) && AnswersOf(plan.formulas, all, r.value)
    ensures r.Failure? ==> !r.error.NoProgress? && !r.error.NoProgram?
  {
    hide Acceptable, PlanHolds, Solves, IsExecution, IsAnalysis, Describes, Infer, References, ParsedOf, OrdersAll, Keeps,
      ByName, NamesOf, UniqueNames, AnswersOf, BindingsOf;
    var base, bindings := IndexResults(queryResults);
    var analysis: Result<map<string, TypedFormula>, AnalysisError> := AnalyzeTypedFormulaSet(plan.formulas, bindings);
    if analysis.Failure? {
      return Failure(Analysis(analysis.error));
    }
    var programs := analysis.value;
    AcceptedNames(plan.formulas, bindings);
    ghost var parsed := ParsedOf(plan.formulas);
    ghost var env := bindings + BindingsOf(programs);
    ghost var order :| OrdersAll(parsed, order);
    AnalysisSolves(parsed, bindings, programs);
    ProgramsRefer(parsed, bindings, programs);
    var matches: Result<(), ExecutionError> := PlanUnchanged(plan.planned, programs);
    assert PlanHolds(parsed, plan.planned) <==> matches.Success? by { CanonicalPrograms(parsed, bindings, programs, plan.planned); }
    if matches.Failure? {
      return Failure(matches.error);
    }
    var run: Result<Worklist, ExecutionError> := RunAll(plan.formulas, programs, plan.zeros, base, parsed, env, order);
    if run.Failure? {
      return Failure(run.error);
    }
    AllRun(run.value, parsed, env, base, plan.zeros);
    assert Executes(plan, queryResults, BindingsOf(programs), run.value.results);
    var answers := CollectAnswers(plan.formulas, run.value.byName, run.value.results);
    r := Success(answers);
  }

  method CollectAnswers(formulas: seq<Formula>, byName: QueryResults, ghost all: QueryResults) returns (answers: seq<QueryResult>)
    requires byName.Keys == NamesOf(formulas)
    requires forall f :: f in byName ==> f in all && byName[f] == all[f]
    ensures AnswersOf(formulas, all, answers)
  {
    answers := [];
    for i := 0 to |formulas|
      invariant AnswersOf(formulas[..i], all, answers)
    {
      assert formulas[i] in formulas;
      assert formulas[i].name in byName;
      answers := answers + [byName[formulas[i].name]];
    }
    assert formulas[..|formulas|] == formulas;
  }

  /** One answer for each formula, in order. */
  predicate AnswersOf(formulas: seq<Formula>, all: QueryResults, answers: seq<QueryResult>)
  {
    && |answers| == |formulas|
    && forall i :: 0 <= i < |formulas| ==> formulas[i].name in all && answers[i] == all[formulas[i].name]
  }

  lemma AcceptedNames(formulas: seq<Formula>, bindings: Environment)
    requires Acceptable(formulas, bindings)
    ensures AllParse(formulas)
    ensures ParsedOf(formulas).Keys == NamesOf(formulas) && UniqueNames(formulas)
    ensures ParsedOf(formulas).Keys !! bindings.Keys
  {
    hide ReadFormula, Solves, HasCycle;
    ParsedOfHas(formulas);
    forall f | f in NamesOf(formulas) ensures f in ParsedOf(formulas) {
      var formula :| formula in formulas && formula.name == f;
    }
  }

  lemma ProgramsRefer(parsed: ParsedSet, bindings: Environment, programs: map<string, TypedFormula>)
    requires IsAnalysis(parsed, bindings, programs)
    ensures forall g :: g in parsed ==> forall r :: r in References(parsed[g].root) ==> r in bindings || r in parsed
  {
    hide Describes;
    forall g, r | g in parsed && r in References(parsed[g].root) ensures r in bindings || r in parsed {
      DescribesResolves(programs[g], parsed[g].root, bindings + BindingsOf(programs));
    }
  }

  lemma CanonicalPrograms(parsed: ParsedSet, bindings: Environment, programs: map<string, TypedFormula>, planned: map<string, seq<Token>>)
    requires IsAnalysis(parsed, bindings, programs)
    ensures PlanHolds(parsed, planned) <==>
            forall name :: name in planned ==> name in programs && planned[name] == programs[name].canonical
  {
    hide Canonical;
  }

  lemma AllRun(w: Worklist, parsed: ParsedSet, env: Environment, base: QueryResults, zeros: set<string>)
    requires Keeps(w, parsed, env, base, zeros, {})
    ensures IsExecution(parsed, env, base, zeros, w.results)
    ensures w.byName.Keys == parsed.Keys && forall f :: f in w.byName ==> w.byName[f] == w.results[f]
    ensures forall f :: f in parsed ==> f in w.results
  {
    hide RunFormula;
  }

  // ----- what can go wrong while rows are evaluated -----

  lemma CellMatches(v: CellValue, typ: StaticType)
    requires typ.Valid() && CellToValue(v, typ).Success?
    ensures InputMatches(CellToValue(v, typ).value, typ)
  {
  }

  lemma {:induction false} LastValueMatches(q: QueryResult, rows: seq<Row>, text: string)
    requires RowsFit(q, rows) && ResultType(q).Valid()
    ensures LastValue(q, rows, text).Some? ==> InputMatches(LastValue(q, rows, text).value, ResultType(q))
  {
    hide KeyOf, CellToValue, InputMatches, ResultType;
    if rows != [] {
      var row := rows[|rows| - 1];
      assert RowFits(q, row);
      CellMatches(row[|row| - 1].value, ResultType(q));
      LastValueMatches(q, rows[..|rows| - 1], text);
    }
  }

  lemma ValueAtMatches(q: QueryResult, text: string, zero: bool)
    requires RowsFit(q, q.rows) && ResultType(q).Valid()
    ensures InputMatches(ValueAt(q, text, zero), ResultType(q))
  {
    hide LastValue;
    LastValueMatches(q, q.rows, text);
  }

  /** Every aligned value is an input the evaluator accepts for its result's type. */
  lemma AlignedValuesMatch(references: seq<string>, inputs: seq<QueryResult>, zeros: set<string>, text: string, j: nat)
    requires |references| == |inputs| && Alignable(inputs) && Alignment.DistinctNames(references) && j < |references|
    requires text in Align(references, inputs, zeros).values && ResultType(inputs[j]).Valid()
    ensures references[j] in Align(references, inputs, zeros).values[text]
    ensures InputMatches(Align(references, inputs, zeros).values[text][references[j]], ResultType(inputs[j]))
  {
    hide Align, SomeRowHas, ValueAt, InputMatches, ResultType;
    var at := AlignIsOuterJoin(references, inputs, zeros);
    assert SomeRowHas(inputs, text);
    assert Lookup(Align(references, inputs, zeros).values, text, references[j]) ==
           Some(ValueAt(inputs[j], text, references[j] in zeros));
    ValueAtMatches(inputs[j], text, references[j] in zeros);
  }

  lemma {:induction false} NamesDistinct(seen: set<string>, names: seq<string>)
    ensures Alignment.DistinctNames(DistinctFrom(seen, names))
    decreases |names|
  {
    if names != [] {
      NamesDistinct(seen, names[1..]);
      NamesDistinct(seen + {names[0]}, names[1..]);
      DistinctFromMembers(seen + {names[0]}, names[1..]);
    }
  }

  /** The results a formula reads have the types it was inferred with, in trimmed units. */
  ghost predicate ResultsFit(root: Node, env: Environment, results: QueryResults)
  {
    forall r :: r in References(root) ==>
      r in env && r in results && ResultType(results[r]) == env[r].typ && env[r].typ.Valid() && Trimmed(env[r].typ.unit)
  }

  /** Over results of the inferred types, a formula that passed inference only fails to
      evaluate where a clamp gets its bounds the wrong way round. */
  lemma {:induction false} OnlyClampsFail(program: TypedFormula, env: Environment, results: QueryResults, zeros: set<string>, n: nat)
    requires Describes(program, program.root, env) && ResultsFit(program.root, env, results)
    requires InputsAccepted(Names(program.root), results)
    requires n <= |Align(Names(program.root), Gather(Names(program.root), results), zeros).keys|
    ensures var a := Align(Names(program.root), Gather(Names(program.root), results), zeros);
            && (forall key :: key in a.keys[..n] ==> key.text in a.values)
            && (RowsOf(program.root, env, a.keys[..n], a.values).Failure? ==>
                  RowsOf(program.root, env, a.keys[..n], a.values).error == LowAboveHigh)
  {
    hide Align, Meaning, ValueCell, ResultsFit, References, DistinctFrom, Alignable;
    var inputs := Gather(Names(program.root), results);
    var a := Align(Names(program.root), inputs, zeros);
    AlignedKeysHaveValues(Names(program.root), inputs, zeros);
    if n > 0 {
      OnlyClampsFail(program, env, results, zeros, n - 1);
      assert a.keys[..n][..n - 1] == a.keys[..n - 1];
      assert a.keys[n - 1] in a.keys;
      KeyEvaluates(program, env, results, zeros, a.keys[n - 1].text);
    }
  }

  lemma KeyEvaluates(program: TypedFormula, env: Environment, results: QueryResults, zeros: set<string>, text: string)
    requires Describes(program, program.root, env) && ResultsFit(program.root, env, results)
    requires InputsAccepted(Names(program.root), results)
    requires text in Align(Names(program.root), Gather(Names(program.root), results), zeros).values
    ensures var v := Meaning(program.root, env, Align(Names(program.root), Gather(Names(program.root), results), zeros).values[text]);
            v.Failure? ==> v.error == LowAboveHigh
  {
    hide Align, Meaning, Evaluate, Infer, InputMatches, ResultType, Trimmed, DistinctFrom, Alignable;
    var inputs := Gather(Names(program.root), results);
    var values := Align(Names(program.root), inputs, zeros).values[text];
    SameNames(program.root);
    NamesDistinct({}, References(program.root));
    forall r | r in References(program.root) ensures r in values && InputMatches(values[r], env[r].typ) {
      var j :| 0 <= j < |Names(program.root)| && Names(program.root)[j] == r;
      AlignedValuesMatch(Names(program.root), inputs, zeros, text, j);
    }
    EvaluateIsMeaning(program.root, env, program.types, values);
    TypeSoundness(program.root, env, program.types, values);
  }

  lemma RunResultType(name: string, root: Node, env: Environment, results: QueryResults, zeros: set<string>)
    requires RunFormula(name, root, env, results, zeros).Some?
    ensures Infer(root, env).Success?
    ensures ResultType(RunFormula(name, root, env, results, zeros).value) ==
            StaticType(Infer(root, env).value.typ.kind, Infer(root, env).value.typ.unit)
  {
    hide Align, RowsOf, Infer, InputsAccepted, Gather;
  }

  /** Every result in an execution has the type inferred for it. */
  lemma ExecutionHasInferredTypes(plan: FormulaPlan, queryResults: seq<QueryResult>, s: Environment, all: QueryResults, name: string)
    requires Executes(plan, queryResults, s, all) && name in all
    ensures name in ResultBindings(ByName(queryResults)) + s
    ensures ResultType(all[name]) == (ResultBindings(ByName(queryResults)) + s)[name].typ
  {
    hide Acceptable, PlanHolds, RunFormula, Infer, ParsedOf, ByName, SeriesSignature;
    AcceptedNames(plan.formulas, ResultBindings(ByName(queryResults)));
    var env := ResultBindings(ByName(queryResults)) + s;
    if name !in ByName(queryResults) {
      var root := ParsedOf(plan.formulas)[name].root;
      assert RunFormula(name, root, env, all, plan.zeros) == Some(all[name]);
      RunResultType(name, root, env, all, plan.zeros);
    }
  }
}
