/** The live tail: repeated polls of a growing log table from a (timestamp, id) cursor. */
module LiveTail {
  import opened Results
  import opened Strings
  import opened TimeLimits

  const BATCH_SIZE: nat := 500

  // ----- order -----

  datatype Cursor = Cursor(timestamp: nat, id: string)

  predicate TextBefore(a: string, b: string)
  {
    if b == "" then false
    else if a == "" then true
    else a[0] < b[0] || (a[0] == b[0] && TextBefore(a[1..], b[1..]))
  }

  /** Where two texts first differ, the smaller one has the smaller character or ends. */
  predicate DiffersAt(a: string, b: string, k: nat)
  {
    k <= |a| && k < |b| && a[..k] == b[..k] && (k < |a| ==> a[k] < b[k])
  }

  lemma {:induction false} TextOrderIsLexicographic(a: string, b: string)
    ensures TextBefore(a, b) <==> exists k: nat :: DiffersAt(a, b, k)
    decreases |a|
  {
    if b != "" {
      if a == "" || a[0] < b[0] {
        assert DiffersAt(a, b, 0);
      } else if a[0] == b[0] {
        TextOrderIsLexicographic(a[1..], b[1..]);
        if k: nat :| DiffersAt(a[1..], b[1..], k) {
          assert a[..k + 1] == [a[0]] + a[1..][..k] && b[..k + 1] == [b[0]] + b[1..][..k];
          assert DiffersAt(a, b, k + 1);
        }
        if k: nat :| DiffersAt(a, b, k) {
          assert k > 0 && a[1..][..k - 1] == a[..k][1..] && b[1..][..k - 1] == b[..k][1..];
          assert DiffersAt(a[1..], b[1..], k - 1);
        }
      } else {
        forall k: nat ensures !DiffersAt(a, b, k) {
          if 0 < k <= |a| && k < |b| {
            assert a[..k][0] == a[0] && b[..k][0] == b[0];
          }
        }
      }
    }
  }

  predicate Before(a: Cursor, b: Cursor)
  {
    a.timestamp < b.timestamp || (a.timestamp == b.timestamp && TextBefore(a.id, b.id))
  }

  lemma {:induction false} TextOrder(a: string, b: string, c: string)
    ensures !TextBefore(a, a)
    ensures TextBefore(a, b) && TextBefore(b, c) ==> TextBefore(a, c)
    ensures TextBefore(a, b) || a == b || TextBefore(b, a)
    decreases |a|
  {
    if a != "" {
      TextOrder(a[1..], if b == "" then "" else b[1..], if c == "" then "" else c[1..]);
      if b != "" && a[0] == b[0] && a[1..] == b[1..] { assert a == [a[0]] + a[1..] == b; }
    }
  }

  lemma CursorOrder(a: Cursor, b: Cursor, c: Cursor)
    ensures !Before(a, a)
    ensures Before(a, b) && Before(b, c) ==> Before(a, c)
    ensures Before(a, b) || a == b || Before(b, a)
    ensures !(Before(a, b) && Before(b, a))
  {
    TextOrder(a.id, b.id, c.id);
    TextOrder(a.id, b.id, a.id);
  }

  // ----- the store -----

  /** A scanned value by its dynamic type. */
  datatype DbValue = U64(n: nat) | U32(n: nat) | I64(i: int) | Int(i: int) | Text(s: string) | Bytes(s: string) | Other(printed: string)

  /** A stored row; the details are severity, body, trace id and span id. */
  datatype LogRow = LogRow(timestamp: nat, id: string, details: seq<DbValue>)

  function KeyOf(r: LogRow): Cursor { Cursor(r.timestamp, r.id) }

  function ValuesOf(r: LogRow): seq<DbValue> { [U64(r.timestamp), Text(r.id)] + r.details }

  type Table = set<LogRow>

  ghost predicate UniqueKeys(table: Table)
  {
    forall a, b :: a in table && b in table && KeyOf(a) == KeyOf(b) ==> a == b
  }

  datatype Poll = Poll(startMS: int, endMS: int, filter: LogRow -> bool, after: Option<Cursor>)

  /** The row satisfies the compiled condition: range, filter and strict cursor. */
  predicate Selects(q: Poll, r: LogRow)
  {
    && q.startMS * NANOS_PER_MILLI <= r.timestamp < q.endMS * NANOS_PER_MILLI
    && q.filter(r)
    && (q.after.Some? ==> r.timestamp > q.after.value.timestamp ||
                          (r.timestamp == q.after.value.timestamp && TextBefore(q.after.value.id, r.id)))
  }

  predicate Ascending(rows: seq<LogRow>)
  {
    forall i, j :: 0 <= i < j < |rows| ==> Before(KeyOf(rows[i]), KeyOf(rows[j]))
  }

  /** What the store answers: the first `limit` selected rows by timestamp and id. */
  ghost predicate IsAnswer(q: Poll, table: Table, limit: nat, rows: seq<LogRow>)
  {
    && Ascending(rows) && |rows| <= limit
    && (forall r :: r in rows ==> r in table && Selects(q, r))
    && forall r :: r in table && Selects(q, r) ==>
         r in rows || (|rows| == limit && forall s :: s in rows ==> Before(KeyOf(s), KeyOf(r)))
  }

  // ----- reading one batch -----

  datatype ReadError = RangeTooLate | WrongWidth | BadTimestamp | NoId | WriteFailed

  datatype RawRow = RawRow(timestampNS: int, id: DbValue, details: seq<DbValue>)

  function IntText(i: int): string
  {
    if i < 0 then "-" + Decimal(-i) else Decimal(i)
  }

  function StringValue(v: DbValue): string
  {
    match v
    case Text(s) => s
    case Bytes(s) => s
    case U64(n) => Decimal(n)
    case U32(n) => Decimal(n)
    case I64(i) => IntText(i)
    case Int(i) => IntText(i)
    case Other(printed) => printed
  }

  function Uint64Value(v: DbValue): Option<nat>
  {
    match v
    case U64(n) => Some(n)
    case U32(n) => Some(n)
    case I64(i) => if i >= 0 then Some(i) else None
    case Int(i) => if i >= 0 then Some(i) else None
    case _ => None
  }

  /** Conversion of an unsigned 64-bit number to a signed one. */
  function ToInt64(n: nat): int
  {
    var m := n % 0x1_0000_0000_0000_0000;
    if m < 0x8000_0000_0000_0000 then m else m - 0x1_0000_0000_0000_0000
  }

  function RawRowFromValues(values: seq<DbValue>): Result<(RawRow, Cursor), ReadError>
  {
    if |values| != 6 then Failure(WrongWidth)
    else
      var timestamp := Uint64Value(values[0]);
      if timestamp.None? then Failure(BadTimestamp)
      else
        var id := StringValue(values[1]);
        if id == "" || id == "<nil>" then Failure(NoId)
        else Success((RawRow(ToInt64(timestamp.value), values[1], values[2..]), Cursor(timestamp.value, id)))
  }

  predicate HasId(r: LogRow) { r.id != "" && r.id != "<nil>" }

  function Emitted(r: LogRow): RawRow { RawRow(r.timestamp, Text(r.id), r.details) }

  /** A row within the range a poll may ask for keeps its timestamp and its cursor. */
  lemma StoredRowConverts(q: Poll, r: LogRow)
    requires Selects(q, r) && q.endMS <= MAX_LOG_TIMESTAMP_MS && |r.details| == 4
    ensures RawRowFromValues(ValuesOf(r)) == if HasId(r) then Success((Emitted(r), KeyOf(r))) else Failure(NoId)
  {
    assert ValuesOf(r)[2..] == r.details;
  }

  predicate WellStored(table: Table)
  {
    forall r :: r in table ==> |r.details| == 4
  }

  function EmittedAll(rows: seq<LogRow>): (raw: seq<RawRow>)
    ensures |raw| == |rows| && forall i :: 0 <= i < |rows| ==> raw[i] == Emitted(rows[i])
  {
    seq(|rows|, i requires 0 <= i < |rows| => Emitted(rows[i]))
  }

  /** The rows of a batch, of which one more may have been fetched to look ahead. */
  function Batch(answer: seq<LogRow>): seq<LogRow>
  {
    if |answer| > BATCH_SIZE then answer[..BATCH_SIZE] else answer
  }

  function LastKey(rows: seq<LogRow>): Option<Cursor>
  {
    if rows == [] then None else Some(KeyOf(rows[|rows| - 1]))
  }

  /** End of the polled range: now, but never before the start. */
  function EndOf(startMS: int, nowMS: int): int
  {
    if nowMS + 1 <= startMS then startMS + 1 else nowMS + 1
  }

  /** Whole numbers that are not negative are timestamps; texts are read as they are. */
  lemma ValuesConvert(v: DbValue, n: nat, i: int, s: string)
    ensures Uint64Value(v) == Some(n) <==> v in {U64(n), U32(n), I64(n), Int(n)}
    ensures v in {Text(s), Bytes(s), Other(s)} ==> StringValue(v) == s
    ensures v in {U64(n), U32(n), I64(n), Int(n)} ==> StringValue(v) == Decimal(n)
    ensures i < 0 ==> StringValue(I64(i)) == StringValue(Int(i)) == "-" + Decimal(-i)
  {
  }

  /** A batch is the first 500 rows of its answer, or all of them. */
  lemma BatchIsBounded(answer: seq<LogRow>)
    ensures Batch(answer) <= answer && |Batch(answer)| == if |answer| < 500 then |answer| else 500
  {
  }

  /** The range of a poll goes on past both its start and the current millisecond, and no further. */
  lemma EndIsPastNow(startMS: int, nowMS: int, end: int)
    ensures startMS < EndOf(startMS, nowMS) && nowMS < EndOf(startMS, nowMS)
    ensures startMS < end && nowMS < end ==> EndOf(startMS, nowMS) <= end
  {
  }

  // ----- runs -----

  /** One poll: the clock, the table as it was then, and what the store answered. */
  datatype Turn = Turn(nowMS: int, table: Table, answer: seq<LogRow>)

  function CursorAfter(turns: seq<Turn>): Option<Cursor>
  {
    if turns == [] then None
    else
      var batch := Batch(turns[|turns| - 1].answer);
      if batch == [] then CursorAfter(turns[..|turns| - 1]) else LastKey(batch)
  }

  function RowsOf(turns: seq<Turn>): seq<LogRow>
  {
    if turns == [] then [] else RowsOf(turns[..|turns| - 1]) + Batch(turns[|turns| - 1].answer)
  }

  /** Rows are only ever added between polls, and each poll resumes from the cursor that the
      polls before it left. */
  ghost predicate IsRun(startMS: int, filter: LogRow -> bool, turns: seq<Turn>)
  {
    turns == [] ||
    (var before, t := turns[..|turns| - 1], turns[|turns| - 1];
     && IsRun(startMS, filter, before)
     && TurnFollows(startMS, filter, before, t))
  }

  ghost predicate TurnFollows(startMS: int, filter: LogRow -> bool, before: seq<Turn>, t: Turn)
  {
    && UniqueKeys(t.table)
    && (before != [] ==> before[|before| - 1].table <= t.table)
    && IsAnswer(Poll(startMS, EndOf(startMS, t.nowMS), filter, CursorAfter(before)), t.table, BATCH_SIZE + 1, t.answer)
  }

  predicate Passed(cursor: Option<Cursor>, key: Cursor)
  {
    cursor.Some? && !Before(cursor.value, key)
  }

  lemma BatchEndsThere(answer: seq<LogRow>, i: nat)
    requires Ascending(answer) && i < |answer| && Batch(answer) != []
    ensures Passed(LastKey(Batch(answer)), KeyOf(answer[i])) ==> i < |Batch(answer)|
  {
    if i >= |Batch(answer)| {
      assert Before(KeyOf(answer[|Batch(answer)| - 1]), KeyOf(answer[i]));
    }
  }

  /** A batch holds the first rows of its answer: those up to its last key, and no others. */
  lemma BatchIsPrefix(q: Poll, table: Table, answer: seq<LogRow>)
    requires IsAnswer(q, table, BATCH_SIZE + 1, answer)
    ensures Ascending(Batch(answer)) && forall r :: r in Batch(answer) ==> r in table && Selects(q, r)
    ensures forall r :: r in Batch(answer) ==> LastKey(Batch(answer)).Some? && Passed(LastKey(Batch(answer)), KeyOf(r))
    ensures forall r :: r in table && Selects(q, r) && Batch(answer) != [] && Passed(LastKey(Batch(answer)), KeyOf(r)) ==>
              r in Batch(answer)
    ensures forall r :: r in table && Selects(q, r) ==> r in Batch(answer) || |Batch(answer)| == BATCH_SIZE
  {
    hide Selects, Before;
    var batch := Batch(answer);
    forall r | r in batch ensures r in answer && Passed(LastKey(batch), KeyOf(r)) {
      var i :| 0 <= i < |batch| && batch[i] == r;
      assert answer[i] == r;
      CursorOrder(KeyOf(r), KeyOf(batch[|batch| - 1]), KeyOf(r));
    }
    forall r | r in table && Selects(q, r) && batch != [] && Passed(LastKey(batch), KeyOf(r)) ensures r in batch {
      assert batch[|batch| - 1] == answer[|batch| - 1] && batch[|batch| - 1] in answer;
      if r in answer {
        var i :| 0 <= i < |answer| && answer[i] == r;
        BatchEndsThere(answer, i);
        assert batch[i] == r;
      }
    }
  }

  lemma StrictCursor(q: Poll, r: LogRow)
    requires Selects(q, r) && q.after.Some?
    ensures Before(q.after.value, KeyOf(r))
  {
  }

  /** What has been emitted is in order, and the cursor is its last key. */
  lemma {:induction false} RunAscends(startMS: int, filter: LogRow -> bool, turns: seq<Turn>)
    requires IsRun(startMS, filter, turns)
    ensures Ascending(RowsOf(turns)) && CursorAfter(turns) == LastKey(RowsOf(turns))
  {
    hide Ascending, Selects, IsAnswer, UniqueKeys;
    if turns == [] {
      NothingAscends();
    } else {
      var before, t := turns[..|turns| - 1], turns[|turns| - 1];
      RunAscends(startMS, filter, before);
      var q := Poll(startMS, EndOf(startMS, t.nowMS), filter, CursorAfter(before));
      BatchIsPrefix(q, t.table, t.answer);
      BatchContinues(q, RowsOf(before), Batch(t.answer));
    }
  }

  lemma NothingAscends()
    ensures Ascending([])
  {
  }

  lemma BatchContinues(q: Poll, rows: seq<LogRow>, batch: seq<LogRow>)
    requires Ascending(rows) && Ascending(batch) && q.after == LastKey(rows)
    requires forall r :: r in batch ==> Selects(q, r)
    ensures Ascending(rows + batch)
  {
    forall r | r in batch && rows != [] ensures Before(KeyOf(rows[|rows| - 1]), KeyOf(r)) {
      StrictCursor(q, r);
    }
    AscendingAppend(rows, batch);
  }

  /** Rows behind a cursor continue those up to it. */
  lemma AscendingAppend(rows: seq<LogRow>, batch: seq<LogRow>)
    requires Ascending(rows) && Ascending(batch)
    requires forall r :: r in batch && rows != [] ==> Before(KeyOf(rows[|rows| - 1]), KeyOf(r))
    ensures Ascending(rows + batch)
  {
    hide Before;
    forall i, j | 0 <= i < j < |rows + batch| ensures Before(KeyOf((rows + batch)[i]), KeyOf((rows + batch)[j])) {
      if i < |rows| && j >= |rows| {
        var r := batch[j - |rows|];
        assert r in batch;
        CursorOrder(KeyOf(rows[i]), KeyOf(rows[|rows| - 1]), KeyOf(r));
      }
    }
  }

  /** Nothing repeats: emitted rows strictly increase by timestamp and id, and each is a row of
      the table that the filter and the range select. */
  lemma {:induction false} EmittedRowsAreSelected(startMS: int, filter: LogRow -> bool, turns: seq<Turn>)
    requires IsRun(startMS, filter, turns)
    ensures Ascending(RowsOf(turns))
    ensures forall r :: r in RowsOf(turns) ==>
              && r in turns[|turns| - 1].table && filter(r) && startMS * NANOS_PER_MILLI <= r.timestamp
              && exists i :: 0 <= i < |turns| && r.timestamp < EndOf(startMS, turns[i].nowMS) * NANOS_PER_MILLI
  {
    hide Before, Ascending;
    RunAscends(startMS, filter, turns);
    if turns != [] {
      var last := |turns| - 1;
      var before, t := turns[..last], turns[last];
      EmittedRowsAreSelected(startMS, filter, before);
      BatchIsPrefix(Poll(startMS, EndOf(startMS, t.nowMS), filter, CursorAfter(before)), t.table, t.answer);
      forall r | r in RowsOf(turns)
        ensures r in t.table && filter(r) && startMS * NANOS_PER_MILLI <= r.timestamp
        ensures exists i :: 0 <= i < |turns| && r.timestamp < EndOf(startMS, turns[i].nowMS) * NANOS_PER_MILLI
      {
        if r in RowsOf(before) {
          var i :| 0 <= i < last && r.timestamp < EndOf(startMS, before[i].nowMS) * NANOS_PER_MILLI;
          assert before[i] == turns[i];
        } else {
          assert r in Batch(t.answer);
        }
      }
    }
  }

  /** Nothing is skipped: a row that matches and was in the table while the cursor was still
      before it has been emitted, or is still ahead of the cursor. */
  lemma {:induction false} NothingIsSkipped(startMS: int, filter: LogRow -> bool, turns: seq<Turn>, i: nat, r: LogRow)
    requires IsRun(startMS, filter, turns) && i < |turns|
    requires r in turns[i].table && filter(r) && startMS * NANOS_PER_MILLI <= r.timestamp
    requires !Passed(CursorAfter(turns[..i]), KeyOf(r))
    ensures r in turns[|turns| - 1].table
    ensures r in RowsOf(turns) || !Passed(CursorAfter(turns), KeyOf(r))
    decreases |turns|
  {
    hide Before, IsAnswer, UniqueKeys;
    var last := |turns| - 1;
    var before, t := turns[..last], turns[last];
    if i < last {
      assert before[i] == turns[i] && before[..i] == turns[..i];
      NothingIsSkipped(startMS, filter, before, i, r);
    } else {
      assert before == turns[..i];
    }
    var batch := Batch(t.answer);
    var q := Poll(startMS, EndOf(startMS, t.nowMS), filter, CursorAfter(before));
    BatchIsPrefix(q, t.table, t.answer);
    if r !in RowsOf(before) && batch != [] && Passed(LastKey(batch), KeyOf(r)) {
      InRangeBelow(q, batch[|batch| - 1], r);
      assert r in batch;
    }
  }

  /** A matching row at or before a selected one, and after the cursor, is selected as well. */
  lemma InRangeBelow(q: Poll, s: LogRow, r: LogRow)
    requires Selects(q, s) && !Before(KeyOf(s), KeyOf(r)) && !Passed(q.after, KeyOf(r))
    requires q.filter(r) && q.startMS * NANOS_PER_MILLI <= r.timestamp
    ensures Selects(q, r)
  {
    hide TextBefore;
    CursorOrder(KeyOf(s), KeyOf(r), KeyOf(s));
  }

  /** A pending row in range is emitted by the next poll, unless that poll is full of earlier
      rows. */
  lemma PendingRowAdvances(startMS: int, filter: LogRow -> bool, turns: seq<Turn>, r: LogRow)
    requires IsRun(startMS, filter, turns) && turns != []
    requires var t := turns[|turns| - 1];
             && r in t.table && filter(r)
             && startMS * NANOS_PER_MILLI <= r.timestamp < EndOf(startMS, t.nowMS) * NANOS_PER_MILLI
             && !Passed(CursorAfter(turns[..|turns| - 1]), KeyOf(r))
    ensures var batch := Batch(turns[|turns| - 1].answer);
            || r in batch
            || (|batch| == BATCH_SIZE && forall s :: s in batch ==> Before(KeyOf(s), KeyOf(r)))
  {
    hide IsAnswer;
    var before, t := turns[..|turns| - 1], turns[|turns| - 1];
    var batch := Batch(t.answer);
    var q := Poll(startMS, EndOf(startMS, t.nowMS), filter, CursorAfter(before));
    assert Selects(q, r) by { if q.after.Some? { assert Before(q.after.value, KeyOf(r)); } }
    hide Selects, Before;
    BatchIsPrefix(q, t.table, t.answer);
    if r !in batch {
      assert !Passed(LastKey(batch), KeyOf(r));
      forall s | s in batch ensures Before(KeyOf(s), KeyOf(r)) {
        CursorOrder(KeyOf(s), KeyOf(batch[|batch| - 1]), KeyOf(r));
        CursorOrder(KeyOf(batch[|batch| - 1]), KeyOf(s), KeyOf(r));
      }
    }
  }

  /** Matching rows before `r` that the cursor has not passed. */
  ghost function Ahead(startMS: int, filter: LogRow -> bool, table: Table, cursor: Option<Cursor>, r: LogRow): (rows: set<LogRow>)
  {
    set s | s in table && filter(s) && startMS * NANOS_PER_MILLI <= s.timestamp
            && Before(KeyOf(s), KeyOf(r)) && !Passed(cursor, KeyOf(s))
  }

  lemma {:induction false} AscendingIsDistinct(rows: seq<LogRow>)
    requires Ascending(rows)
    ensures |(set s | s in rows)| == |rows|
  {
    if rows != [] {
      var before, last := rows[..|rows| - 1], rows[|rows| - 1];
      AscendingIsDistinct(before);
      forall i | 0 <= i < |before| ensures before[i] != last {
        assert Before(KeyOf(rows[i]), KeyOf(last));
        CursorOrder(KeyOf(last), KeyOf(last), KeyOf(last));
      }
      assert (set s | s in rows) == (set s | s in before) + {last};
    }
  }

  /** A poll that is full of rows before `r` leaves that many fewer of them ahead. */
  lemma FullBatchAdvances(q: Poll, table: Table, answer: seq<LogRow>, all: Table, r: LogRow)
    requires IsAnswer(q, table, BATCH_SIZE + 1, answer) && table <= all
    requires |Batch(answer)| == BATCH_SIZE && forall s :: s in Batch(answer) ==> Before(KeyOf(s), KeyOf(r))
    ensures |Ahead(q.startMS, q.filter, all, LastKey(Batch(answer)), r)| + BATCH_SIZE <= |Ahead(q.startMS, q.filter, all, q.after, r)|
  {
    var batch := Batch(answer);
    var emitted := set s | s in batch;
    var was, left := Ahead(q.startMS, q.filter, all, q.after, r), Ahead(q.startMS, q.filter, all, LastKey(batch), r);
    BatchIsPrefix(q, table, answer);
    AscendingIsDistinct(batch);
    hide IsAnswer, Before, Ascending, Batch;
    forall s | s in emitted ensures s in was && s !in left {
      SelectedIsAhead(q, s);
    }
    var end := batch[|batch| - 1];
    forall s | s in left ensures s in was {
      if Passed(q.after, KeyOf(s)) {
        SelectedIsAhead(q, end);
        CursorOrder(q.after.value, KeyOf(end), KeyOf(s));
      }
    }
    SetsAdd(emitted, left, was);
  }

  lemma SelectedIsAhead(q: Poll, s: LogRow)
    requires Selects(q, s)
    ensures q.filter(s) && q.startMS * NANOS_PER_MILLI <= s.timestamp && !Passed(q.after, KeyOf(s))
  {
  }

  lemma SetsAdd(a: Table, b: Table, all: Table)
    requires a <= all && b <= all && a !! b
    ensures |a| + |b| <= |all|
  {
    assert |a + b| == |a| + |b|;
    SubsetSize(a + b, all);
  }

  lemma {:induction false} SubsetSize(a: Table, b: Table)
    requires a <= b
    ensures |a| <= |b|
  {
    if x :| x in a {
      SubsetSize(a - {x}, b - {x});
    }
  }

  /** One poll emits a pending row in range, or a full batch of those before it. */
  lemma PollAdvances(startMS: int, filter: LogRow -> bool, turns: seq<Turn>, r: LogRow, all: Table)
    requires IsRun(startMS, filter, turns) && turns != [] && turns[|turns| - 1].table <= all
    requires r in turns[|turns| - 1].table && filter(r)
    requires startMS * NANOS_PER_MILLI <= r.timestamp < EndOf(startMS, turns[|turns| - 1].nowMS) * NANOS_PER_MILLI
    requires !Passed(CursorAfter(turns[..|turns| - 1]), KeyOf(r))
    ensures || r in RowsOf(turns)
            || |Ahead(startMS, filter, all, CursorAfter(turns), r)| + BATCH_SIZE
               <= |Ahead(startMS, filter, all, CursorAfter(turns[..|turns| - 1]), r)|
  {
    hide Before, IsAnswer, UniqueKeys, Ahead, Selects, Ascending, EndOf, Batch, Passed;
    var before, t := turns[..|turns| - 1], turns[|turns| - 1];
    if r !in RowsOf(turns) {
      PendingRowAdvances(startMS, filter, turns, r);
      FullBatchAdvances(Poll(startMS, EndOf(startMS, t.nowMS), filter, CursorAfter(before)), t.table, t.answer, all, r);
    }
  }

  lemma {:induction false} EveryPollAdvances(startMS: int, filter: LogRow -> bool, turns: seq<Turn>, i: nat, r: LogRow, all: Table)
    requires IsRun(startMS, filter, turns) && i < |turns| && turns[|turns| - 1].table <= all
    requires r in turns[i].table && filter(r) && startMS * NANOS_PER_MILLI <= r.timestamp
    requires forall j :: i <= j < |turns| ==> r.timestamp < EndOf(startMS, turns[j].nowMS) * NANOS_PER_MILLI
    requires !Passed(CursorAfter(turns[..i]), KeyOf(r))
    ensures || r in RowsOf(turns)
            || |Ahead(startMS, filter, all, CursorAfter(turns), r)| + BATCH_SIZE * (|turns| - i)
               <= |Ahead(startMS, filter, all, CursorAfter(turns[..i]), r)|
    decreases |turns|
  {
    hide Before, IsAnswer, UniqueKeys, Ahead, Selects, Ascending, EndOf, Batch, Passed, CursorAfter;
    var last := |turns| - 1;
    var before, t := turns[..last], turns[last];
    if i < last {
      assert before[i] == turns[i] && before[..i] == turns[..i];
      assert forall j :: i <= j < last ==> before[j] == turns[j];
      EveryPollAdvances(startMS, filter, before, i, r, all);
      NothingIsSkipped(startMS, filter, before, i, r);
      assert BATCH_SIZE * (|turns| - i) == BATCH_SIZE * (last - i) + BATCH_SIZE;
    } else {
      assert before == turns[..i];
    }
    if r !in RowsOf(turns) {
      PollAdvances(startMS, filter, turns, r, all);
    }
  }

  /** A pending row in range is reached: with k matching rows before it that the cursor has not
      passed, it has been emitted after k / BATCH_SIZE + 1 polls. Rows added meanwhile count
      among the k. */
  lemma PendingRowIsReached(startMS: int, filter: LogRow -> bool, turns: seq<Turn>, i: nat, r: LogRow)
    requires IsRun(startMS, filter, turns) && i < |turns|
    requires r in turns[i].table && filter(r) && startMS * NANOS_PER_MILLI <= r.timestamp
    requires forall j :: i <= j < |turns| ==> r.timestamp < EndOf(startMS, turns[j].nowMS) * NANOS_PER_MILLI
    requires !Passed(CursorAfter(turns[..i]), KeyOf(r))
    requires |turns| - i > |Ahead(startMS, filter, turns[|turns| - 1].table, CursorAfter(turns[..i]), r)| / BATCH_SIZE
    ensures r in RowsOf(turns)
  {
    hide Ahead, IsRun, CursorAfter, RowsOf;
    EveryPollAdvances(startMS, filter, turns, i, r, turns[|turns| - 1].table);
  }

  lemma RunExtends(startMS: int, filter: LogRow -> bool, turns: seq<Turn>, t: Turn)
    requires IsRun(startMS, filter, turns) && TurnFollows(startMS, filter, turns, t)
    ensures IsRun(startMS, filter, turns + [t])
    ensures CursorAfter(turns + [t]) == if Batch(t.answer) == [] then CursorAfter(turns) else LastKey(Batch(t.answer))
    ensures EmittedAll(RowsOf(turns + [t])) == EmittedAll(RowsOf(turns)) + EmittedAll(Batch(t.answer))
  {
    hide IsAnswer, UniqueKeys, Emitted, Batch;
    var more := turns + [t];
    assert more[..|more| - 1] == turns && more[|more| - 1] == t;
    assert RowsOf(more) == RowsOf(turns) + Batch(t.answer);
  }

  class Stream {
    const startMS: int
    const filter: LogRow -> bool
    var after: Option<Cursor>
    /** Rows written to the client. */
    var written: seq<RawRow>
    /** The polls that have been written out completely. */
    ghost var turns: seq<Turn>

    /** Cursor and output are those of a run. */
    ghost predicate Valid()
      reads this
    {
      IsRun(startMS, filter, turns) && after == CursorAfter(turns) && written == EmittedAll(RowsOf(turns))
    }

    constructor (startMS: int, filter: LogRow -> bool)
      ensures this.startMS == startMS && this.filter == filter && Valid() && turns == []
    {
      this.startMS, this.filter := startMS, filter;
      after, written, turns := None, [], [];
    }

    /** Reads one batch: the rows to emit and the cursor of the last. */
    method Read(endMS: int, ghost table: Table, answer: seq<LogRow>)
      returns (r: Result<(seq<RawRow>, Option<Cursor>), ReadError>)
      requires IsAnswer(Poll(startMS, endMS, filter, after), table, BATCH_SIZE + 1, answer) && WellStored(table)
      ensures r.Success? <==> endMS <= MAX_LOG_TIMESTAMP_MS && forall x :: x in Batch(answer) ==> HasId(x)
      ensures r.Success? ==> r.value == (EmittedAll(Batch(answer)), LastKey(Batch(answer)))
      ensures r.Failure? ==> r.error != WriteFailed
    {
      hide RawRowFromValues, Selects, Ascending, Emitted, HasId;
      if endMS > MAX_LOG_TIMESTAMP_MS {
        return Failure(RangeTooLate);
      }
      var fetched := Batch(answer);
      assert forall x :: x in fetched ==> x in answer;
      var rows: seq<RawRow>, cursor: Option<Cursor> := [], None;
      for i := 0 to |fetched|
        invariant rows == EmittedAll(fetched[..i]) && cursor == LastKey(fetched[..i])
        invariant forall k :: 0 <= k < i ==> HasId(fetched[k])
      {
        assert fetched[i] in answer && fetched[i] in fetched;
        StoredRowConverts(Poll(startMS, endMS, filter, after), fetched[i]);
        var row: Result<(RawRow, Cursor), ReadError> := RawRowFromValues(ValuesOf(fetched[i]));
        if row.Failure? {
          return Failure(row.error);
        }
        rows := rows + [row.value.0];
        cursor := Some(row.value.1);
      }
      assert fetched[..|fetched|] == fetched;
      r := Success((rows, cursor));
    }

    /** Writes one batch. `accepted` is how many rows the connection still takes; the cursor
        only moves once the whole batch has been written. */
    method WriteBatch(nowMS: int, ghost table: Table, answer: seq<LogRow>, accepted: nat) returns (failure: Option<ReadError>)
      requires Valid() && TurnFollows(startMS, filter, turns, Turn(nowMS, table, answer)) && WellStored(table)
      modifies this
      ensures failure.None? <==>
        && EndOf(startMS, nowMS) <= MAX_LOG_TIMESTAMP_MS && (forall x :: x in Batch(answer) ==> HasId(x))
        && |Batch(answer)| <= accepted
      ensures failure.None? ==>
        && Valid() && turns == old(turns) + [Turn(nowMS, table, answer)]
        && written == old(written) + EmittedAll(Batch(answer))
        && after == if Batch(answer) == [] then old(after) else LastKey(Batch(answer))
      ensures failure.Some? ==>
        && after == old(after)
        && (failure == Some(WriteFailed) ==>
              accepted < |Batch(answer)| && written == old(written) + EmittedAll(Batch(answer))[..accepted])
        && (failure != Some(WriteFailed) ==> written == old(written))
    {
      hide IsAnswer, HasId, IsRun, CursorAfter, RowsOf, Batch, EmittedAll, UniqueKeys;
      var read: Result<(seq<RawRow>, Option<Cursor>), ReadError> := Read(EndOf(startMS, nowMS), table, answer);
      if read.Failure? {
        return Some(read.error);
      }
      var rows := read.value.0;
      for i := 0 to |rows|
        invariant i <= accepted && written == old(written) + rows[..i] && after == old(after) && turns == old(turns)
      {
        if i == accepted {
          return Some(WriteFailed);
        }
        written := written + [rows[i]];
      }
      assert rows[..|rows|] == rows;
      if read.value.1.Some? {
        after := read.value.1;
      }
      RunExtends(startMS, filter, turns, Turn(nowMS, table, answer));
      turns := turns + [Turn(nowMS, table, answer)];
      failure := None;
    }
  }
}
