/** Outer-join alignment of formula inputs by their key columns. */
module Alignment {
  import opened Results
  import opened Strings
  import opened FormulaTyping
  import opened FormulaEvaluation
  import opened Fields

  // ----- the alignment key -----

  /** Each encoded value behind its length and a colon. */
  function AlignmentKey(encoded: seq<string>): string
  {
    if encoded == [] then ""
    else AlignmentKey(encoded[..|encoded| - 1]) + Entry(encoded[|encoded| - 1])
  }

  function Entry(text: string): (entry: string)
    ensures entry != ""
  {
    Decimal(|text|) + ":" + text
  }

  function ReadDecimal(s: string): int
    requires forall i :: 0 <= i < |s| ==> '0' <= s[i] <= '9'
  {
    if s == "" then 0 else 10 * ReadDecimal(s[..|s| - 1]) + (s[|s| - 1] - '0') as int
  }

  lemma {:induction false} ReadDecimalInverts(n: nat)
    ensures ReadDecimal(Decimal(n)) == n
  {
    if n < 10 {
      assert Decimal(n)[..0] == "";
    } else {
      ReadDecimalInverts(n / 10);
      assert Decimal(n)[..|Decimal(n)| - 1] == Decimal(n / 10);
    }
  }

  /** The text before the first colon tells where an entry's length ends. */
  lemma ColonPosition(a: string, x: string, b: string, y: string)
    requires forall i :: 0 <= i < |a| ==> a[i] != ':'
    requires forall i :: 0 <= i < |b| ==> b[i] != ':'
    requires a + ":" + x == b + ":" + y
    ensures a == b && x == y
  {
    var s := a + ":" + x;
    assert s[|a|] == ':' && s[|b|] == ':';
    assert |a| == |b| by {
      assert forall i :: 0 <= i < |a| ==> s[i] == a[i];
      assert forall i :: 0 <= i < |b| ==> s[i] == b[i];
    }
    assert a == s[..|a|] && b == s[..|b|];
    assert x == s[|a| + 1..] && y == s[|b| + 1..];
  }

  lemma EntrySplits(a: string, x: string, b: string, y: string)
    requires Entry(a) + x == Entry(b) + y
    ensures a == b && x == y
  {
    assert Entry(a) + x == Decimal(|a|) + ":" + (a + x);
    assert Entry(b) + y == Decimal(|b|) + ":" + (b + y);
    ColonPosition(Decimal(|a|), a + x, Decimal(|b|), b + y);
    ReadDecimalInverts(|a|);
    ReadDecimalInverts(|b|);
    assert a == (a + x)[..|a|] && b == (b + y)[..|b|];
    assert x == (a + x)[|a|..] && y == (b + y)[|b|..];
  }

  lemma {:induction false} KeyOfCons(first: string, others: seq<string>)
    ensures AlignmentKey([first] + others) == Entry(first) + AlignmentKey(others)
  {
    hide Entry;
    var all := [first] + others;
    if others == [] {
      assert all[..0] == [] && "" + Entry(first) == Entry(first) == Entry(first) + "";
      assert AlignmentKey(all[..0]) == "";
    } else {
      var last := |others| - 1;
      KeyOfCons(first, others[..last]);
      assert all[..|all| - 1] == [first] + others[..last] && all[|all| - 1] == others[last];
      Associate(Entry(first), AlignmentKey(others[..last]), Entry(others[last]));
    }
  }

  lemma Associate(a: string, b: string, c: string)
    ensures a + b + c == a + (b + c)
  {
  }

  /** Different sequences of encoded values never share a key. */
  lemma {:induction false} AlignmentKeyInjective(a: seq<string>, b: seq<string>)
    requires AlignmentKey(a) == AlignmentKey(b)
    ensures a == b
    decreases |a|
  {
    if a != [] { KeyOfCons(a[0], a[1..]); assert a == [a[0]] + a[1..]; }
    if b != [] { KeyOfCons(b[0], b[1..]); assert b == [b[0]] + b[1..]; }
    if a != [] && b != [] {
      EntrySplits(a[0], AlignmentKey(a[1..]), b[0], AlignmentKey(b[1..]));
      AlignmentKeyInjective(a[1..], b[1..]);
    }
  }

  /** Builds the key entry by entry. */
  method BuildKey(encoded: seq<string>) returns (key: string)
    ensures key == AlignmentKey(encoded)
  {
    key := "";
    for k := 0 to |encoded|
      invariant key == AlignmentKey(encoded[..k])
    {
      assert encoded[..k + 1][..k] == encoded[..k];
      key := key + Decimal(|encoded[k]|);
      key := key + ":";
      key := key + encoded[k];
      assert key == AlignmentKey(encoded[..k]) + Entry(encoded[k]);
    }
    assert encoded[..|encoded|] == encoded;
  }

  // ----- query results -----

  datatype CellValue = NullValue | NumberValue(x: real, finite: bool) | BoolValue(b: bool) | OtherValue

  /** A result cell: its dynamic type and printed form as one text, and its value. */
  datatype Cell = Cell(text: string, value: CellValue)

  type Row = seq<Cell>

  datatype Column = Column(name: string, field: Option<FieldRef>, kind: Option<Kind>, unit: string)

  datatype QueryResult = QueryResult(name: string, columns: seq<Column>, rows: seq<Row>)

  datatype InputError =
    | Unavailable(name: string)
    | NoValueColumn(name: string)
    | DifferentColumns
    | InvalidRow(name: string)
    | NotBool
    | NotNumber

  function ResultType(q: QueryResult): StaticType
  {
    if q.columns == [] then DIMENSIONLESS
    else
      var c := q.columns[|q.columns| - 1];
      StaticType(if c.kind.None? then Number else c.kind.value, c.unit)
  }

  predicate HasValueColumn(q: QueryResult)
  {
    q.columns != [] && q.columns[|q.columns| - 1].name == "value"
  }

  function KeyColumns(q: QueryResult): seq<Column>
    requires q.columns != []
  {
    q.columns[..|q.columns| - 1]
  }

  predicate SameColumns(a: seq<Column>, b: seq<Column>)
  {
    |a| == |b| && forall i :: 0 <= i < |a| ==> a[i].name == b[i].name && a[i].field == b[i].field
  }

  function CellToValue(v: CellValue, typ: StaticType): Result<Value, InputError>
  {
    if v.NullValue? then Success(Absent(typ))
    else if typ.kind == Bool then
      if v.BoolValue? then Success(Value(typ, 0.0, v.b, false, true)) else Failure(NotBool)
    else if v.NumberValue? then Success(if v.finite then Numeric(typ, v.x) else Absent(typ))
    else Failure(NotNumber)
  }

  /** The cells a row is aligned by, with their key. */
  datatype Key = Key(text: string, cells: Row)

  function Texts(cells: Row): (texts: seq<string>)
    ensures |texts| == |cells| && forall i :: 0 <= i < |cells| ==> texts[i] == cells[i].text
  {
    seq(|cells|, i requires 0 <= i < |cells| => cells[i].text)
  }

  function KeyOf(row: Row): Key
    requires row != []
  {
    var cells := row[..|row| - 1];
    Key(AlignmentKey(Texts(cells)), cells)
  }

  predicate RowFits(q: QueryResult, row: Row)
  {
    |row| == |q.columns| && row != [] && CellToValue(row[|row| - 1].value, ResultType(q)).Success?
  }

  predicate RowsFit(q: QueryResult, rows: seq<Row>)
  {
    forall row :: row in rows ==> RowFits(q, row)
  }

  /** The inputs can be aligned: a value column each, the same key columns, readable rows. */
  predicate Alignable(inputs: seq<QueryResult>)
  {
    && (forall q :: q in inputs ==> HasValueColumn(q) && RowsFit(q, q.rows))
    && (forall q :: q in inputs ==> SameColumns(KeyColumns(inputs[0]), KeyColumns(q)))
  }

  // ----- what the loops compute -----

  /** One row of one input as it is read. */
  datatype Event = Event(reference: string, key: Key, value: Value)

  function EventOf(reference: string, q: QueryResult, row: Row): Event
    requires RowFits(q, row)
  {
    Event(reference, KeyOf(row), CellToValue(row[|row| - 1].value, ResultType(q)).value)
  }

  function ReadRows(reference: string, q: QueryResult, rows: seq<Row>): (events: seq<Event>)
    requires RowsFit(q, rows)
  {
    if rows == [] then []
    else ReadRows(reference, q, rows[..|rows| - 1]) + [EventOf(reference, q, rows[|rows| - 1])]
  }

  function ReadInputs(references: seq<string>, inputs: seq<QueryResult>): seq<Event>
    requires |references| == |inputs| && Readable(inputs)
  {
    if references == [] then []
    else
      var last := |references| - 1;
      ReadInputs(references[..last], inputs[..last]) + ReadRows(references[last], inputs[last], inputs[last].rows)
  }

  predicate Readable(inputs: seq<QueryResult>)
  {
    forall q :: q in inputs ==> RowsFit(q, q.rows)
  }

  predicate HasKey(keys: seq<Key>, text: string)
  {
    exists key :: key in keys && key.text == text
  }

  function AddKey(keys: seq<Key>, key: Key): seq<Key>
  {
    if HasKey(keys, key.text) then keys else keys + [key]
  }

  /** Each distinct key once, where it was first seen. */
  function FirstKeys(events: seq<Event>): seq<Key>
  {
    if events == [] then []
    else AddKey(FirstKeys(events[..|events| - 1]), events[|events| - 1].key)
  }

  function Collect(values: map<string, Inputs>, e: Event): map<string, Inputs>
  {
    var row: Inputs := if e.key.text in values then values[e.key.text] else map[];
    values[e.key.text := row[e.reference := e.value]]
  }

  /** Values read so far, by key and input; a later row of the same key wins. */
  function Collected(events: seq<Event>): map<string, Inputs>
  {
    if events == [] then map[]
    else Collect(Collected(events[..|events| - 1]), events[|events| - 1])
  }

  /** What a key without a row gets: zero for count-like queries, otherwise Missing. */
  function DefaultValue(typ: StaticType, zero: bool): Value
  {
    if zero && typ.kind == Number then Numeric(typ, 0.0) else Absent(typ)
  }

  function FillRow(row: Inputs, references: seq<string>, inputs: seq<QueryResult>, zeros: set<string>): Inputs
    requires |references| == |inputs|
  {
    if references == [] then row
    else
      var last := |references| - 1;
      var before := FillRow(row, references[..last], inputs[..last], zeros);
      if references[last] in before then before
      else before[references[last] := DefaultValue(ResultType(inputs[last]), references[last] in zeros)]
  }

  datatype Aligned = Aligned(keys: seq<Key>, values: map<string, Inputs>, columns: seq<Column>)

  /** Keys in first-seen order and, for every key, a value for every input. */
  function Align(references: seq<string>, inputs: seq<QueryResult>, zeros: set<string>): Aligned
    requires |references| == |inputs| && Alignable(inputs)
  {
    var events := ReadInputs(references, inputs);
    var collected := Collected(events);
    Aligned(FirstKeys(events),
            map text | text in collected :: FillRow(collected[text], references, inputs, zeros),
            if inputs == [] then [] else KeyColumns(inputs[0]))
  }

  // ----- the alignment is an exact outer join -----

  /** Rows share a key exactly when their encoded key cells are the same. */
  lemma SameKeySameCells(a: Row, b: Row)
    requires a != [] && b != []
    ensures KeyOf(a).text == KeyOf(b).text <==> Texts(a[..|a| - 1]) == Texts(b[..|b| - 1])
  {
    hide AlignmentKey, Texts;
    if KeyOf(a).text == KeyOf(b).text {
      AlignmentKeyInjective(Texts(a[..|a| - 1]), Texts(b[..|b| - 1]));
    }
  }

  predicate DistinctTexts(keys: seq<Key>)
  {
    forall a, b :: 0 <= a < b < |keys| ==> keys[a].text != keys[b].text
  }

  /** The key was first seen at this event. */
  predicate FirstSeenAt(events: seq<Event>, key: Key, i: nat)
  {
    && i < |events| && events[i].key == key
    && forall j :: 0 <= j < i ==> events[j].key.text != key.text
  }

  lemma HasAddedKey(keys: seq<Key>, key: Key)
    ensures forall text :: HasKey(AddKey(keys, key), text) <==> HasKey(keys, text) || text == key.text
    ensures DistinctTexts(keys) ==> DistinctTexts(AddKey(keys, key))
  {
    if !HasKey(keys, key.text) {
      var more := keys + [key];
      assert more[|keys|] == key;
      forall text ensures HasKey(more, text) <==> HasKey(keys, text) || text == key.text {
        if HasKey(keys, text) {
          var earlier :| earlier in keys && earlier.text == text;
          assert earlier in more;
        }
      }
      forall a, b | 0 <= a < b < |more| && DistinctTexts(keys) ensures more[a].text != more[b].text {
        if b == |keys| { assert keys[a] in keys; }
      }
    }
  }

  predicate SomeEventHas(events: seq<Event>, text: string)
  {
    exists e :: e in events && e.key.text == text
  }

  lemma SomeEventHasAppend(a: seq<Event>, b: seq<Event>, text: string)
    ensures SomeEventHas(a + b, text) <==> SomeEventHas(a, text) || SomeEventHas(b, text)
  {
    if SomeEventHas(a, text) {
      var e :| e in a && e.key.text == text;
      assert e in a + b;
    }
    if SomeEventHas(b, text) {
      var e :| e in b && e.key.text == text;
      assert e in a + b;
    }
  }

  /** A key is listed for a text exactly when some event has that key; never twice. */
  lemma {:induction false} KeysAreThoseSeen(events: seq<Event>)
    ensures DistinctTexts(FirstKeys(events))
    ensures forall text :: HasKey(FirstKeys(events), text) <==> SomeEventHas(events, text)
    ensures forall text :: HasKey(FirstKeys(events), text) <==> text in Collected(events)
  {
    hide AddKey, HasKey, SomeEventHas;
    forall text { NothingSeen("", text); }
    if events != [] {
      var before, e := events[..|events| - 1], events[|events| - 1];
      KeysAreThoseSeen(before);
      HasAddedKey(FirstKeys(before), e.key);
      assert events == before + [e];
      forall text ensures SomeEventHas(events, text) <==> SomeEventHas(before, text) || text == e.key.text {
        SomeEventHasAppend(before, [e], text);
        OneEventHas(e, text);
      }
    }
  }

  lemma OneEventHas(e: Event, text: string)
    ensures SomeEventHas([e], text) <==> e.key.text == text
  {
    assert e in [e];
  }

  lemma SeenStays(events: seq<Event>, key: Key, i: nat)
    requires events != [] && FirstSeenAt(events[..|events| - 1], key, i)
    ensures FirstSeenAt(events, key, i)
  {
  }

  lemma SeenNow(events: seq<Event>)
    requires events != [] && !HasKey(FirstKeys(events[..|events| - 1]), events[|events| - 1].key.text)
    ensures FirstSeenAt(events, events[|events| - 1].key, |events| - 1)
  {
    hide HasKey, FirstKeys, Collected;
    var last := |events| - 1;
    KeysAreThoseSeen(events[..last]);
    forall j | 0 <= j < last ensures events[j].key.text != events[last].key.text {
      assert events[j] in events[..last];
    }
  }

  /** Every listed key is the one of the first event with its text, and the list follows
      the order of those events. */
  lemma {:induction false} KeysInFirstSeenOrder(events: seq<Event>) returns (at: seq<nat>)
    ensures |at| == |FirstKeys(events)|
    ensures forall k :: 0 <= k < |at| ==> at[k] < |events| && FirstSeenAt(events, FirstKeys(events)[k], at[k])
    ensures forall a, b :: 0 <= a < b < |at| ==> at[a] < at[b]
  {
    hide FirstSeenAt, HasKey;
    at := [];
    if events != [] {
      var last := |events| - 1;
      var before := FirstKeys(events[..last]);
      at := KeysInFirstSeenOrder(events[..last]);
      forall k | 0 <= k < |before| ensures FirstSeenAt(events, before[k], at[k]) {
        SeenStays(events, before[k], at[k]);
      }
      if !HasKey(before, events[last].key.text) {
        SeenNow(events);
        at := at + [last];
      }
    }
  }

  /** The value of the last row with this key, if there is one. */
  function LastValue(q: QueryResult, rows: seq<Row>, text: string): Option<Value>
    requires RowsFit(q, rows)
  {
    if rows == [] then None
    else
      var row := rows[|rows| - 1];
      assert RowFits(q, row);
      if KeyOf(row).text == text then Some(CellToValue(row[|row| - 1].value, ResultType(q)).value)
      else LastValue(q, rows[..|rows| - 1], text)
  }

  /** The value of an input at a key: that of its last row there, or the default. */
  function ValueAt(q: QueryResult, text: string, zero: bool): Value
    requires RowsFit(q, q.rows)
  {
    var v := LastValue(q, q.rows, text);
    if v.Some? then v.value else DefaultValue(ResultType(q), zero)
  }

  function Lookup(values: map<string, Inputs>, text: string, reference: string): Option<Value>
  {
    if text in values && reference in values[text] then Some(values[text][reference]) else None
  }

  /** The value last read for an input at a key. */
  function LastRead(events: seq<Event>, reference: string, text: string): Option<Value>
  {
    if events == [] then None
    else
      var e := events[|events| - 1];
      if e.reference == reference && e.key.text == text then Some(e.value)
      else LastRead(events[..|events| - 1], reference, text)
  }

  lemma {:induction false} CollectedIsLast(events: seq<Event>, reference: string, text: string)
    ensures Lookup(Collected(events), text, reference) == LastRead(events, reference, text)
  {
    if events != [] {
      CollectedIsLast(events[..|events| - 1], reference, text);
    }
  }

  lemma {:induction false} LastReadAppend(a: seq<Event>, b: seq<Event>, reference: string, text: string)
    ensures LastRead(a + b, reference, text) ==
              (if LastRead(b, reference, text).Some? then LastRead(b, reference, text) else LastRead(a, reference, text))
  {
    if b == [] {
      assert a + b == a;
    } else {
      LastReadAppend(a, b[..|b| - 1], reference, text);
      assert (a + b)[..|a + b| - 1] == a + b[..|b| - 1];
    }
  }

  lemma {:induction false} LastReadOfRows(own: string, q: QueryResult, rows: seq<Row>, reference: string, text: string)
    requires RowsFit(q, rows)
    ensures LastRead(ReadRows(own, q, rows), reference, text) ==
              if own == reference then LastValue(q, rows, text) else None
  {
    hide KeyOf, CellToValue;
    if rows != [] {
      LastReadOfRows(own, q, rows[..|rows| - 1], reference, text);
      var events := ReadRows(own, q, rows);
      assert events[..|events| - 1] == ReadRows(own, q, rows[..|rows| - 1]);
    }
  }

  lemma NothingSeen(reference: string, text: string)
    ensures !HasKey([], text) && !SomeEventHas([], text) && LastRead([], reference, text) == None
  {
  }

  predicate DistinctNames(names: seq<string>)
  {
    forall i, j :: 0 <= i < j < |names| ==> names[i] != names[j]
  }

  lemma {:induction false} LastReadOfInputs(references: seq<string>, inputs: seq<QueryResult>, reference: string, text: string)
    requires |references| == |inputs| && DistinctNames(references) && Readable(inputs)
    ensures reference !in references ==> LastRead(ReadInputs(references, inputs), reference, text) == None
    ensures forall j :: 0 <= j < |references| && references[j] == reference ==>
              LastRead(ReadInputs(references, inputs), reference, text) == LastValue(inputs[j], inputs[j].rows, text)
  {
    hide LastValue, LastRead, ReadRows;
    NothingSeen(reference, text);
    if references != [] {
      var last := |references| - 1;
      LastReadOfInputs(references[..last], inputs[..last], reference, text);
      LastReadOfRows(references[last], inputs[last], inputs[last].rows, reference, text);
      LastReadAppend(ReadInputs(references[..last], inputs[..last]),
                     ReadRows(references[last], inputs[last], inputs[last].rows), reference, text);
    }
  }

  lemma {:induction false} FilledDomain(row: Inputs, references: seq<string>, inputs: seq<QueryResult>, zeros: set<string>)
    requires |references| == |inputs|
    ensures forall r :: r in FillRow(row, references, inputs, zeros) <==> r in row || r in references
    ensures forall r :: r in row ==> FillRow(row, references, inputs, zeros)[r] == row[r]
  {
    hide DefaultValue, ResultType;
    if references != [] {
      var last := |references| - 1;
      FilledDomain(row, references[..last], inputs[..last], zeros);
      assert references == references[..last] + [references[last]];
    }
  }

  lemma {:induction false} FilledAt(row: Inputs, references: seq<string>, inputs: seq<QueryResult>, zeros: set<string>, j: nat)
    requires |references| == |inputs| && DistinctNames(references) && j < |references| && references[j] !in row
    ensures references[j] in FillRow(row, references, inputs, zeros)
    ensures FillRow(row, references, inputs, zeros)[references[j]] ==
            DefaultValue(ResultType(inputs[j]), references[j] in zeros)
  {
    hide DefaultValue, ResultType;
    var last := |references| - 1;
    FilledDomain(row, references[..last], inputs[..last], zeros);
    if j < last {
      FilledAt(row, references[..last], inputs[..last], zeros, j);
    }
  }

  predicate RowHas(row: Row, text: string)
  {
    row != [] && KeyOf(row).text == text
  }

  /** Some row of some input has this key. */
  predicate SomeRowHas(inputs: seq<QueryResult>, text: string)
  {
    exists q :: q in inputs && exists row :: row in q.rows && RowHas(row, text)
  }

  lemma {:induction false} RowsHaveEvents(reference: string, q: QueryResult, rows: seq<Row>, text: string)
    requires RowsFit(q, rows)
    ensures SomeEventHas(ReadRows(reference, q, rows), text) <==> exists row :: row in rows && RowHas(row, text)
  {
    hide KeyOf, CellToValue;
    if rows != [] {
      var before, row := rows[..|rows| - 1], rows[|rows| - 1];
      RowsHaveEvents(reference, q, before, text);
      SomeEventHasAppend(ReadRows(reference, q, before), [EventOf(reference, q, row)], text);
      assert rows == before + [row];
      assert SomeEventHas([EventOf(reference, q, row)], text) <==> RowHas(row, text) by {
        assert EventOf(reference, q, row) in [EventOf(reference, q, row)];
      }
    }
  }

  /** Reading leaves an event for every row, and no others. */
  lemma {:induction false} EventsAreRows(references: seq<string>, inputs: seq<QueryResult>, text: string)
    requires |references| == |inputs| && Readable(inputs)
    ensures SomeEventHas(ReadInputs(references, inputs), text) <==> SomeRowHas(inputs, text)
  {
    hide SomeEventHas, RowHas, ReadRows;
    NothingSeen("", text);
    if references != [] {
      var last := |references| - 1;
      EventsAreRows(references[..last], inputs[..last], text);
      RowsHaveEvents(references[last], inputs[last], inputs[last].rows, text);
      SomeEventHasAppend(ReadInputs(references[..last], inputs[..last]),
                         ReadRows(references[last], inputs[last], inputs[last].rows), text);
      assert inputs == inputs[..last] + [inputs[last]];
    }
  }

  /** Alignment is an exact outer join: every key of any input's rows is listed, once, and
      nothing else is; keys follow the order in which rows are read; and every key has, for
      every input, the value of its last row with that key or the default. */
  lemma AlignIsOuterJoin(references: seq<string>, inputs: seq<QueryResult>, zeros: set<string>) returns (at: seq<nat>)
    requires |references| == |inputs| && Alignable(inputs) && DistinctNames(references)
    ensures DistinctTexts(Align(references, inputs, zeros).keys)
    ensures forall text :: HasKey(Align(references, inputs, zeros).keys, text) <==> SomeRowHas(inputs, text)
    ensures forall text :: text in Align(references, inputs, zeros).values <==> SomeRowHas(inputs, text)
    ensures |at| == |Align(references, inputs, zeros).keys| && forall a, b :: 0 <= a < b < |at| ==> at[a] < at[b]
    ensures forall k :: 0 <= k < |at| ==>
              FirstSeenAt(ReadInputs(references, inputs), Align(references, inputs, zeros).keys[k], at[k])
    ensures forall text, j :: SomeRowHas(inputs, text) && 0 <= j < |references| ==>
              Lookup(Align(references, inputs, zeros).values, text, references[j]) ==
              Some(ValueAt(inputs[j], text, references[j] in zeros))
  {
    hide HasKey, SomeRowHas, FillRow, ReadInputs, LastValue, Collected, FirstKeys;
    var events := ReadInputs(references, inputs);
    at := KeysInFirstSeenOrder(events);
    KeysAreThoseSeen(events);
    forall text ensures HasKey(FirstKeys(events), text) <==> SomeRowHas(inputs, text) {
      EventsAreRows(references, inputs, text);
    }
    forall text, j | SomeRowHas(inputs, text) && 0 <= j < |references|
      ensures Lookup(Align(references, inputs, zeros).values, text, references[j]) ==
              Some(ValueAt(inputs[j], text, references[j] in zeros))
    {
      assert text in Collected(events);
      CollectedIsLast(events, references[j], text);
      LastReadOfInputs(references, inputs, references[j], text);
      var row := Collected(events)[text];
      FilledDomain(row, references, inputs, zeros);
      if references[j] !in row { FilledAt(row, references, inputs, zeros, j); }
    }
  }

  // ----- what the aligned values and keys are -----

  /** The last of some rows with this key. */
  predicate IsLastRow(rows: seq<Row>, text: string, i: nat)
  {
    i < |rows| && RowHas(rows[i], text) && forall k :: i < k < |rows| ==> !RowHas(rows[k], text)
  }

  lemma {:induction false} LastValueOfNone(q: QueryResult, rows: seq<Row>, text: string)
    requires RowsFit(q, rows) && forall row :: row in rows ==> !RowHas(row, text)
    ensures LastValue(q, rows, text) == None
  {
    hide CellToValue, KeyOf, ResultType;
    if rows != [] {
      assert rows[|rows| - 1] in rows && RowFits(q, rows[|rows| - 1]);
      LastValueOfNone(q, rows[..|rows| - 1], text);
    }
  }

  lemma {:induction false} LastValueIsLastRow(q: QueryResult, rows: seq<Row>, text: string, i: nat)
    requires RowsFit(q, rows) && IsLastRow(rows, text, i)
    ensures RowFits(q, rows[i]) && LastValue(q, rows, text) == Some(CellToValue(rows[i][|rows[i]| - 1].value, ResultType(q)).value)
    decreases |rows|
  {
    hide CellToValue, KeyOf, ResultType;
    var last := |rows| - 1;
    assert rows[i] in rows && rows[last] in rows && RowFits(q, rows[last]) && RowFits(q, rows[i]);
    if i < last {
      assert !RowHas(rows[last], text);
      assert IsLastRow(rows[..last], text, i);
      LastValueIsLastRow(q, rows[..last], text, i);
    }
  }

  /** The type a value column gives its values: a number unless the column says otherwise. */
  predicate HasColumnType(v: Value, c: Column)
  {
    v.typ.unit == c.unit && v.typ.kind == if c.kind.Some? then c.kind.value else Number
  }

  /** A cell read as a value: null, NaN and infinities are Missing. */
  predicate ReadsCell(v: Value, cell: CellValue)
  {
    match cell
    case NullValue => v.missing
    case NumberValue(x, finite) => if finite then !v.missing && v.number == x else v.missing
    case BoolValue(b) => !v.missing && v.truth == b
    case OtherValue => false
  }

  /** Every key has for every input the cell of its last row there. Without a row it has zero for
      a numeric input that defaults to zero, and Missing for every other one. */
  lemma AlignedValues(references: seq<string>, inputs: seq<QueryResult>, zeros: set<string>, text: string, j: nat, i: nat)
    requires |references| == |inputs| && Alignable(inputs) && DistinctNames(references)
    requires SomeRowHas(inputs, text) && j < |references|
    ensures var found := Lookup(Align(references, inputs, zeros).values, text, references[j]);
            var q := inputs[j];
            && found.Some? && q.columns != [] && HasColumnType(found.value, q.columns[|q.columns| - 1])
            && ((forall row :: row in q.rows ==> !RowHas(row, text)) ==>
                  if references[j] in zeros && found.value.typ.kind == Number then !found.value.missing && found.value.number == 0.0
                  else found.value.missing)
            && (IsLastRow(q.rows, text, i) ==> ReadsCell(found.value, q.rows[i][|q.rows[i]| - 1].value))
  {
    var q := inputs[j];
    assert q in inputs && HasValueColumn(q) && RowsFit(q, q.rows);
    ValueHasType(q, text, references[j] in zeros);
    ValueIsRead(q, text, references[j] in zeros, i);
    hide Align, SomeRowHas, ValueAt, RowHas, SameColumns, IsLastRow, ReadsCell;
    var _ := AlignIsOuterJoin(references, inputs, zeros);
  }

  lemma ValueIsRead(q: QueryResult, text: string, zero: bool, i: nat)
    requires HasValueColumn(q) && RowsFit(q, q.rows)
    ensures var v := ValueAt(q, text, zero);
            && ((forall row :: row in q.rows ==> !RowHas(row, text)) ==>
                  if zero && v.typ.kind == Number then !v.missing && v.number == 0.0 else v.missing)
            && (IsLastRow(q.rows, text, i) ==> ReadsCell(v, q.rows[i][|q.rows[i]| - 1].value))
  {
    hide KeyOf, LastValue;
    if forall row :: row in q.rows ==> !RowHas(row, text) {
      LastValueOfNone(q, q.rows, text);
    }
    if IsLastRow(q.rows, text, i) {
      LastValueIsLastRow(q, q.rows, text, i);
    }
  }

  lemma ValueHasType(q: QueryResult, text: string, zero: bool)
    requires HasValueColumn(q) && RowsFit(q, q.rows)
    ensures HasColumnType(ValueAt(q, text, zero), q.columns[|q.columns| - 1])
  {
    LastValueHasType(q, q.rows, text);
  }

  lemma {:induction false} LastValueHasType(q: QueryResult, rows: seq<Row>, text: string)
    requires HasValueColumn(q) && RowsFit(q, rows)
    ensures LastValue(q, rows, text).Some? ==> HasColumnType(LastValue(q, rows, text).value, q.columns[|q.columns| - 1])
  {
    hide KeyOf;
    if rows != [] {
      assert RowFits(q, rows[|rows| - 1]);
      LastValueHasType(q, rows[..|rows| - 1], text);
    }
  }

  /** Which rows can be read: a cell for every column, and a null or a value of the column's kind
      in the last one. */
  lemma RowFitsExactly(q: QueryResult, row: Row)
    requires q.columns != []
    ensures var kind := q.columns[|q.columns| - 1].kind;
            RowFits(q, row) <==>
            && |row| == |q.columns|
            && (row[|row| - 1].value.NullValue?
                || if kind == Some(Bool) then row[|row| - 1].value.BoolValue? else row[|row| - 1].value.NumberValue?)
  {
  }

  /** Every listed key is the leading cells of some row. */
  lemma {:induction false} KeysAreRowCells(events: seq<Event>, key: Key)
    requires key in FirstKeys(events)
    ensures exists e :: e in events && e.key == key
    decreases |events|
  {
    hide HasKey;
    var before, e := events[..|events| - 1], events[|events| - 1];
    if key in FirstKeys(before) {
      KeysAreRowCells(before, key);
      var e' :| e' in before && e'.key == key;
      assert e' in events;
    } else {
      assert e in events;
    }
  }

  predicate IsRowOf(inputs: seq<QueryResult>, cells: Row)
  {
    exists q :: q in inputs && exists row :: row in q.rows && row != [] && row[..|row| - 1] == cells
  }

  lemma AlignedKeys(references: seq<string>, inputs: seq<QueryResult>, zeros: set<string>)
    requires |references| == |inputs| && Alignable(inputs)
    ensures forall key :: key in Align(references, inputs, zeros).keys ==> IsRowOf(inputs, key.cells)
  {
    var events := ReadInputs(references, inputs);
    forall key | key in Align(references, inputs, zeros).keys ensures IsRowOf(inputs, key.cells) {
      KeysAreRowCells(events, key);
      var e :| e in events && e.key == key;
      EventsComeFromRows(references, inputs, e);
    }
  }

  lemma {:induction false} EventsComeFromRows(references: seq<string>, inputs: seq<QueryResult>, e: Event)
    requires |references| == |inputs| && Readable(inputs) && e in ReadInputs(references, inputs)
    ensures IsRowOf(inputs, e.key.cells)
    decreases |references|
  {
    hide ReadRows, IsRowOf;
    var last := |references| - 1;
    if e in ReadInputs(references[..last], inputs[..last]) {
      EventsComeFromRows(references[..last], inputs[..last], e);
      MoreRows(inputs, e.key.cells);
    } else {
      RowEvents(references[last], inputs[last], inputs[last].rows, e);
      HasRow(inputs, last, e.key.cells);
    }
  }

  lemma MoreRows(inputs: seq<QueryResult>, cells: Row)
    requires inputs != [] && IsRowOf(inputs[..|inputs| - 1], cells)
    ensures IsRowOf(inputs, cells)
  {
    var q :| q in inputs[..|inputs| - 1] && exists row :: row in q.rows && row != [] && row[..|row| - 1] == cells;
    assert q in inputs;
  }

  lemma HasRow(inputs: seq<QueryResult>, j: nat, cells: Row)
    requires j < |inputs| && exists row :: row in inputs[j].rows && row != [] && row[..|row| - 1] == cells
    ensures IsRowOf(inputs, cells)
  {
    assert inputs[j] in inputs;
  }

  lemma {:induction false} RowEvents(reference: string, q: QueryResult, rows: seq<Row>, e: Event)
    requires RowsFit(q, rows) && e in ReadRows(reference, q, rows)
    ensures exists row :: row in rows && row != [] && row[..|row| - 1] == e.key.cells
    decreases |rows|
  {
    hide CellToValue, AlignmentKey;
    var before, last := rows[..|rows| - 1], rows[|rows| - 1];
    if e in ReadRows(reference, q, before) {
      RowEvents(reference, q, before, e);
      var row :| row in before && row != [] && row[..|row| - 1] == e.key.cells;
      assert row in rows;
    } else {
      assert last in rows && RowFits(q, last);
    }
  }
}
