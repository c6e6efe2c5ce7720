/** Weights that histogram quantiles are computed from: each bucket's count less that of the
    row before it, in order of upper bound. */
module HistogramWeights {
  import opened Results

  /** One bucket: its upper bound, none for +Inf, and its count, cumulative over bounds. */
  datatype Bucket = Bucket(le: Option<real>, count: real)

  /** The +Inf bucket is placed at the largest finite bound. */
  function UpperBound(b: Bucket, top: real): real { if b.le.None? then top else b.le.value }

  predicate Below(a: Option<real>, b: Option<real>)
  {
    a.Some? && (b.None? || a.value < b.value)
  }

  /** No count is negative; every bound occurs once and none is above `top`. */
  predicate Distinct(rows: seq<Bucket>, top: real)
  {
    && (forall i :: 0 <= i < |rows| ==> rows[i].count >= 0.0 && (rows[i].le.Some? ==> rows[i].le.value <= top))
    && forall i, j :: 0 <= i < j < |rows| ==> rows[i].le != rows[j].le
  }

  /** Counts grow with the bound. */
  predicate Cumulative(rows: seq<Bucket>, top: real)
  {
    && Distinct(rows, top)
    && forall i, j :: 0 <= i < |rows| && 0 <= j < |rows| && Below(rows[i].le, rows[j].le) ==> rows[i].count <= rows[j].count
  }

  /** In order of upper bound; tied rows may come either way. */
  predicate Arranged(rows: seq<Bucket>, top: real)
  {
    forall i, j :: 0 <= i < j < |rows| ==> UpperBound(rows[i], top) <= UpperBound(rows[j], top)
  }

  function Weight(rows: seq<Bucket>, i: nat): real
    requires i < |rows|
  {
    var d := rows[i].count - (if i == 0 then 0.0 else rows[i - 1].count);
    if d > 0.0 then d else 0.0
  }

  /** Total weight at bounds up to `u`. */
  function WeightUpTo(rows: seq<Bucket>, u: real, top: real): real
  {
    if rows == [] then 0.0
    else
      var last := |rows| - 1;
      WeightUpTo(rows[..last], u, top) + (if UpperBound(rows[last], top) <= u then Weight(rows, last) else 0.0)
  }

  /** The largest count at bounds up to `u`, zero without any. */
  function Highest(rows: seq<Bucket>, u: real, top: real): real
  {
    if rows == [] then 0.0
    else
      var before := Highest(rows[..|rows| - 1], u, top);
      var last := rows[|rows| - 1];
      if UpperBound(last, top) <= u && last.count > before then last.count else before
  }

  lemma {:induction false} HighestBounds(rows: seq<Bucket>, u: real, top: real)
    ensures Highest(rows, u, top) >= 0.0
    ensures forall b :: b in rows && UpperBound(b, top) <= u ==> b.count <= Highest(rows, u, top)
    ensures Highest(rows, u, top) == 0.0 || exists b :: b in rows && UpperBound(b, top) <= u && b.count == Highest(rows, u, top)
  {
    if rows != [] {
      HighestBounds(rows[..|rows| - 1], u, top);
      var last := rows[|rows| - 1];
      assert forall b :: b in rows <==> b in rows[..|rows| - 1] || b == last;
    }
  }

  /** Only the last row can have a smaller count than one before it. */
  lemma PreviousIsHighest(rows: seq<Bucket>, top: real, i: nat)
    requires Cumulative(rows, top) && Arranged(rows, top) && i < |rows| - 1
    ensures rows[i].count <= rows[|rows| - 2].count
  {
    var p := |rows| - 2;
    assert i == p || UpperBound(rows[i], top) <= UpperBound(rows[p], top) <= UpperBound(rows[p + 1], top);
  }

  /** Among the rows before the last, the one next to it has the highest count. */
  lemma HighestBeforeLast(rows: seq<Bucket>, u: real, top: real)
    requires Cumulative(rows, top) && Arranged(rows, top) && |rows| >= 2
    requires UpperBound(rows[|rows| - 1], top) <= u
    ensures Highest(rows[..|rows| - 1], u, top) == rows[|rows| - 2].count
  {
    var last := |rows| - 1;
    var before := rows[..last];
    HighestBounds(before, u, top);
    hide Highest;
    assert before[last - 1] == rows[last - 1] && UpperBound(rows[last - 1], top) <= u;
    assert rows[last - 1] in before;
    forall b | b in before ensures b.count <= rows[last - 1].count {
      var i :| 0 <= i < last && before[i] == b;
      PreviousIsHighest(rows, top, i);
    }
  }

  /** Weights add up to the largest count: a tied pair in the wrong order loses nothing. */
  lemma {:induction false} WeightIsHighest(rows: seq<Bucket>, u: real, top: real)
    requires Cumulative(rows, top) && Arranged(rows, top)
    ensures WeightUpTo(rows, u, top) == Highest(rows, u, top)
  {
    if rows != [] {
      var last := |rows| - 1;
      WeightIsHighest(rows[..last], u, top);
      if last > 0 && UpperBound(rows[last], top) <= u {
        HighestBeforeLast(rows, u, top);
      }
      assert rows[last].count >= 0.0;
      hide Cumulative, Arranged;
    }
  }

  /** The weight at or below each bound does not depend on how ties are ordered. */
  lemma TieOrderIrrelevant(a: seq<Bucket>, b: seq<Bucket>, u: real, top: real)
    requires Cumulative(a, top) && Arranged(a, top) && Cumulative(b, top) && Arranged(b, top)
    requires forall x :: x in a <==> x in b
    ensures WeightUpTo(a, u, top) == WeightUpTo(b, u, top)
  {
    WeightIsHighest(a, u, top);
    WeightIsHighest(b, u, top);
    HighestBounds(a, u, top);
    HighestBounds(b, u, top);
  }

  /** All weights together are the +Inf count. */
  lemma WeightsAreConserved(rows: seq<Bucket>, top: real, total: real)
    requires Cumulative(rows, top) && Arranged(rows, top) && Bucket(None, total) in rows
    ensures WeightUpTo(rows, top, top) == total
  {
    WeightIsHighest(rows, top, top);
    HighestBounds(rows, top, top);
    var k :| 0 <= k < |rows| && rows[k] == Bucket(None, total);
    forall b | b in rows ensures b.count <= total {
      var i :| 0 <= i < |rows| && rows[i] == b;
      assert i == k || b.le != rows[k].le;
    }
  }

  /** Counts never drop from one row to the next. */
  predicate Growing(rows: seq<Bucket>)
  {
    forall i :: 0 < i < |rows| ==> rows[i - 1].count <= rows[i].count
  }

  /** The weights reach the last count, and stay there exactly if no count drops. */
  lemma {:induction false} WeightsReachLast(rows: seq<Bucket>, top: real)
    requires rows != []
    requires forall i :: 0 <= i < |rows| ==> rows[i].count >= 0.0 && UpperBound(rows[i], top) <= top
    ensures WeightUpTo(rows, top, top) >= rows[|rows| - 1].count
    ensures WeightUpTo(rows, top, top) == rows[|rows| - 1].count <==> Growing(rows)
  {
    var last := |rows| - 1;
    if last > 0 {
      var before := rows[..last];
      WeightsReachLast(before, top);
      assert Growing(rows) <==> Growing(before) && before[last - 1].count <= rows[last].count;
    } else {
      assert WeightUpTo(rows[..0], top, top) == 0.0;
    }
  }

  /** Exactly when the weights add up to the +Inf count: no count drops up to its row, and no
      row tied behind it has a larger one. */
  lemma ConservationIsExact(rows: seq<Bucket>, top: real, n: nat)
    requires Distinct(rows, top) && Arranged(rows, top) && n < |rows| && rows[n].le.None?
    ensures WeightUpTo(rows, top, top) == rows[n].count <==>
            Growing(rows[..n + 1]) && forall i :: n < i < |rows| ==> rows[i].count <= rows[n].count
  {
    WeightsReachLast(rows[..n + 1], top);
    TiedRows(rows, top, n);
    hide Distinct, Arranged, Growing, WeightUpTo;
    if |rows| == n + 1 {
      assert rows[..n + 1] == rows;
    } else {
      OneMore(rows, top, n);
    }
  }

  lemma OneMore(rows: seq<Bucket>, top: real, n: nat)
    requires |rows| == n + 2 && UpperBound(rows[n + 1], top) <= top
    ensures WeightUpTo(rows, top, top) == WeightUpTo(rows[..n + 1], top, top) + Weight(rows, n + 1)
  {
  }

  /** Only the row of the largest finite bound can come after the +Inf row. */
  lemma TiedRows(rows: seq<Bucket>, top: real, n: nat)
    requires Distinct(rows, top) && Arranged(rows, top) && n < |rows| && rows[n].le.None?
    ensures |rows| <= n + 2
    ensures |rows| == n + 2 ==> rows[n + 1].le == Some(top)
  {
    forall i | n < i < |rows| ensures rows[i].le == Some(top) {
      assert UpperBound(rows[n], top) <= UpperBound(rows[i], top);
    }
    var last := |rows| - 1;
    if last > n {
      assert rows[n + 1].le == Some(top) && rows[last].le == Some(top);
    }
  }

  /** The order of the tied rows matters exactly if their counts differ and the row before
      them has a larger count than one of them. */
  lemma TieOrderMatters(before: seq<Bucket>, top: real, finite: real, total: real)
    ensures var (a, b) := (Bucket(Some(top), finite), Bucket(None, total));
            WeightUpTo(before + [a, b], top, top) == WeightUpTo(before + [b, a], top, top) <==>
            finite == total
            || (if before == [] then 0.0 else before[|before| - 1].count) <= Least(finite, total)
  {
    var a, b := Bucket(Some(top), finite), Bucket(None, total);
    TwoMore(before, a, b, top);
    TwoMore(before, b, a, top);
  }

  function Least(x: real, y: real): real { if x <= y then x else y }

  lemma TwoMore(before: seq<Bucket>, a: Bucket, b: Bucket, top: real)
    requires UpperBound(a, top) == UpperBound(b, top) == top
    ensures WeightUpTo(before + [a, b], top, top) ==
            WeightUpTo(before, top, top) + Weight(before + [a], |before|) + Weight(before + [a, b], |before| + 1)
  {
    assert (before + [a, b])[..|before| + 1] == before + [a];
    assert (before + [a])[..|before|] == before;
  }

  /** For example, a drop is cut off at zero, and the weights exceed the +Inf count. */
  lemma DroppingCountsAddWeight()
    ensures var rows := [Bucket(Some(1.0), 5.0), Bucket(Some(2.0), 3.0), Bucket(None, 6.0)];
            Arranged(rows, 2.0) && WeightUpTo(rows, 2.0, 2.0) > 6.0
  {
    var rows := [Bucket(Some(1.0), 5.0), Bucket(Some(2.0), 3.0), Bucket(None, 6.0)];
    assert rows[..2][..1] == [rows[0]] && rows[..1][..0] == [];
    assert rows[..2][..1] == rows[..1];
    assert WeightUpTo(rows[..1], 2.0, 2.0) == 5.0;
    assert WeightUpTo(rows[..2], 2.0, 2.0) == 5.0;
    assert WeightUpTo(rows, 2.0, 2.0) == 8.0;
  }
}
