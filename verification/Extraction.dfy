/** From a fetched row-major matrix to series (src/rrd/reader.c, the second half of `rrd_fetch_data`).
    A missing value (NaN) is `None`. */
module Extraction {
  import opened CStrings
  import opened MetricValues
  import StepSelection

  /** What librrd gave: `rows` of one value per data source, from `start` in steps of `step`. */
  datatype Fetched = Fetched(start: int, end: int, step: nat, names: seq<string>, data: seq<Option<real>>)

  /** `(end - start + step - 1) / step` */
  function Rows(f: Fetched): nat
    requires f.start <= f.end && f.step > 0
  {
    StepSelection.Points(f.end - f.start, f.step)
  }

  ghost predicate Complete(f: Fetched) {
    f.start <= f.end && f.step > 0 && |f.data| == Rows(f) * |f.names|
  }

  /** What `rrd_fetch_r` can give. */
  type Matrix = f: Fetched | Complete(f) witness Fetched(0, 0, 1, [], [])

  lemma CellInside(i: nat, c: nat, rows: nat, cols: nat)
    requires i < rows && c < cols
    ensures 0 <= i * cols + c < rows * cols
  {
    assert (i + 1) * cols <= rows * cols by { StepSelection.Mul(i + 1, rows, cols); }
  }

  function Cell(f: Fetched, i: nat, c: nat): Option<real>
    requires Complete(f) && i < Rows(f) && c < |f.names|
  {
    CellInside(i, c, Rows(f), |f.names|);
    f.data[i * |f.names| + c]
  }

  function OrZero(v: Option<real>): real { if v.Some? then v.value else 0.0 }

  /** The value of row `i` in the `sum` transform: the first two columns, missing values as zero. */
  function Total(f: Fetched, i: nat): real
    requires Complete(f) && i < Rows(f)
  {
    (if |f.names| >= 1 then OrZero(Cell(f, i, 0)) else 0.0) + (if |f.names| >= 2 then OrZero(Cell(f, i, 1)) else 0.0)
  }

  /** Column `c`, or the total when there is no `c`. */
  function Value(f: Fetched, c: Option<nat>, i: nat): Option<real>
    requires Complete(f) && i < Rows(f) && (c.Some? ==> c.value < |f.names|)
  {
    if c.Some? then Cell(f, i, c.value) else Some(Total(f, i))
  }

  predicate Shown(v: Option<real>) { v.Some? && v.value >= 0.0 }

  /** The points of the first `n` rows: those with a value that is not negative, in order. */
  function Points(f: Fetched, c: Option<nat>, n: nat): (r: seq<Point>)
    requires Complete(f) && n <= Rows(f) && (c.Some? ==> c.value < |f.names|)
    ensures |r| <= n
  {
    if n == 0 then []
    else
      var v := Value(f, c, n - 1);
      Points(f, c, n - 1) + (if Shown(v) then [Point(f.start + (n - 1) * f.step, v.value)] else [])
  }

  function Column(f: Fetched, c: Option<nat>): seq<Point>
    requires Complete(f) && (c.Some? ==> c.value < |f.names|)
  {
    Points(f, c, Rows(f))
  }

  /** One series: the buffer holds one point per row at most and the count says how many it has. */
  method ExtractSeries(f: Fetched, c: Option<nat>) returns (buffer: array<Point>, count: nat)
    requires Complete(f) && (c.Some? ==> c.value < |f.names|)
    ensures fresh(buffer) && buffer.Length == Rows(f) && count <= buffer.Length
    ensures buffer[..count] == Column(f, c)
  {
    buffer := new Point[Rows(f)](_ => Point(0, 0.0));
    count := 0;
    for i := 0 to Rows(f)
      invariant count <= i && buffer[..count] == Points(f, c, i)
    {
      var v := Value(f, c, i);
      if v.Some? && v.value >= 0.0 {
        buffer[count] := Point(f.start + i * f.step, v.value);
        count := count + 1;
      }
    }
  }

  /** The series of a fetch: the total alone, or one per data source under its name. */
  function AllSeries(f: Fetched, sum: bool): seq<Series>
    requires Complete(f)
  {
    if sum then [Series(Some("total"), Column(f, None))]
    else seq(|f.names|, i requires 0 <= i < |f.names| => Series(Some(f.names[i]), Column(f, Some(i))))
  }

  predicate AllEmpty(series: seq<Series>) { forall s :: s in series ==> s.points == [] }

  /** What a fetch gives its caller: nothing when no series has a point. */
  function Reading(f: Matrix, sum: bool): Option<seq<Series>> {
    if AllEmpty(AllSeries(f, sum)) then None else Some(AllSeries(f, sum))
  }

  /** The tables filled so far hold the first series. */
  ghost predicate Built(names: seq<Option<string>>, buffers: seq<array<Point>>, counts: seq<nat>, series: seq<Series>)
    reads buffers
  {
    |names| == |buffers| == |counts| <= |series| &&
    forall k :: 0 <= k < |counts| ==>
      counts[k] <= buffers[k].Length && Series(names[k], buffers[k][..counts[k]]) == series[k]
  }

  method BuildAll(f: Fetched, sum: bool, param1: string, config: int) returns (r: MetricData)
    requires Complete(f)
    ensures r.Valid() && fresh(r.Mem) && r.Value() == MetricValue(AllSeries(f, sum), Some(param1), config)
  {
    var seriesCount := if sum then 1 else |f.names|;
    ghost var series := AllSeries(f, sum);
    var names: seq<Option<string>>, buffers: seq<array<Point>>, counts: seq<nat> := [], [], [];
    for ds := 0 to seriesCount
      invariant |counts| == ds && Built(names, buffers, counts, series)
      invariant forall k :: 0 <= k < |buffers| ==> fresh(buffers[k])
    {
      var buffer, count := ExtractSeries(f, if sum then None else Some(ds));
      var name := if sum then "total" else f.names[ds];
      BuiltNext(names, buffers, counts, series, name, buffer, count);
      names := names + [Some(name)];
      buffers, counts := buffers + [buffer], counts + [count];
    }
    r := new MetricData(names, buffers, counts, Some(param1), config);
    SeriesAre(r, series);
  }

  lemma BuiltNext(names: seq<Option<string>>, buffers: seq<array<Point>>, counts: seq<nat>, series: seq<Series>,
                  name: string, buffer: array<Point>, count: nat)
    requires Built(names, buffers, counts, series) && |counts| < |series|
    requires count <= buffer.Length && series[|counts|] == Series(Some(name), buffer[..count])
    ensures Built(names + [Some(name)], buffers + [buffer], counts + [count], series)
  {
  }

  lemma SeriesAre(r: MetricData, series: seq<Series>)
    requires r.Valid() && |series| == |r.counts| && Built(r.names, r.buffers, r.counts, series)
    ensures r.SeriesUpTo(|r.counts|) == series
  {
    forall k | 0 <= k < |series|
      ensures |r.SeriesUpTo(|r.counts|)| == |series| && r.SeriesUpTo(|r.counts|)[k] == series[k]
    {
      r.SeriesIndex(|r.counts|, k);
    }
  }

  /** "Verify we got some data" */
  method AnyPoint(r: MetricData) returns (any: bool)
    requires r.Valid()
    ensures any <==> exists s :: s in r.Value().series && s.points != []
  {
    any := false;
    for ds := 0 to |r.counts|
      invariant forall k :: 0 <= k < ds ==> r.counts[k] == 0
    {
      if r.counts[ds] > 0 {
        r.SeriesIndex(|r.counts|, ds);
        assert r.Value().series[ds].points != [];
        return true;
      }
    }
    NoPoints(r);
  }

  lemma NoPoints(r: MetricData)
    requires r.Valid() && forall k :: 0 <= k < |r.counts| ==> r.counts[k] == 0
    ensures forall s :: s in r.Value().series ==> s.points == []
  {
    forall k | 0 <= k < |r.Value().series| ensures r.Value().series[k].points == [] {
      if |r.counts| > 0 {
        r.SeriesIndex(|r.counts|, 0);
        r.SeriesIndex(|r.counts|, k);
      }
    }
  }

  /** Nothing when there are no rows or no series has a point; else all the series, empty ones included. */
  method Extract(f: Fetched, sum: bool, param1: Option<string>, config: int) returns (r: MetricData?)
    requires Complete(f)
    ensures r == null <==> forall s :: s in AllSeries(f, sum) ==> s.points == []
    ensures r == null <==> Reading(f, sum).None?
    ensures r != null ==> r.Valid() && fresh(r.Mem)
    ensures r != null ==>
      r.Value() == MetricValue(Reading(f, sum).value, Some(if param1.Some? then param1.value else ""), config)
  {
    if Rows(f) <= 0 {
      NoRows(f, sum);
      return null;
    }
    r := BuildAll(f, sum, if param1.Some? then param1.value else "", config);
    var any := AnyPoint(r);
    if !any {
      r := null;
    }
  }

  lemma NoRows(f: Matrix, sum: bool)
    requires Rows(f) == 0
    ensures AllEmpty(AllSeries(f, sum))
  {
  }

  // ----- what a series is -----

  predicate Increasing(ps: seq<Point>) { forall i, j :: 0 <= i < j < |ps| ==> ps[i].timestamp < ps[j].timestamp }

  /** A series is the filter of its column: exactly the rows with a shown value, at their times, in
      strictly increasing order. */
  lemma {:induction false} PointsAreShown(f: Fetched, c: Option<nat>, n: nat)
    requires Complete(f) && n <= Rows(f) && (c.Some? ==> c.value < |f.names|)
    ensures Increasing(Points(f, c, n))
    ensures forall p :: p in Points(f, c, n) ==> p.timestamp < f.start + n * f.step
    ensures forall i :: 0 <= i < n && Shown(Value(f, c, i)) ==>
      Point(f.start + i * f.step, Value(f, c, i).value) in Points(f, c, n)
    ensures forall p :: p in Points(f, c, n) ==>
      exists i :: 0 <= i < n && Value(f, c, i) == Some(p.value) && p == Point(f.start + i * f.step, p.value)
  {
    if n > 0 {
      PointsAreShown(f, c, n - 1);
      assert n * f.step == (n - 1) * f.step + f.step;
    }
  }

  // ----- the two transforms -----

  /** One data source named "total", without a missing value. */
  predicate TotalOnly(f: Matrix) {
    f.names == ["total"] && forall i :: 0 <= i < Rows(f) ==> Cell(f, i, 0).Some?
  }

  /** With one data source, the total is the column except that missing values become zeros. */
  lemma {:induction false} TotalPoints(f: Matrix, n: nat)
    requires |f.names| == 1 && n <= Rows(f)
    ensures |Points(f, Some(0), n)| <= |Points(f, None, n)|
    ensures (forall i :: 0 <= i < n ==> Cell(f, i, 0).Some?) ==> Points(f, None, n) == Points(f, Some(0), n)
    ensures |Points(f, None, n)| == |Points(f, Some(0), n)| ==> forall i :: 0 <= i < n ==> Cell(f, i, 0).Some?
  {
    if n > 0 {
      TotalPoints(f, n - 1);
    }
  }

  /** The plain and the summed series of one matrix are the same exactly when the only data source is named
      "total" and misses no value. */
  lemma TransformsAgree(f: Matrix)
    ensures AllSeries(f, true) == AllSeries(f, false) <==> TotalOnly(f)
    ensures Reading(f, true) == Reading(f, false) && Reading(f, true).Some? ==> TotalOnly(f)
  {
    var summed, plain := AllSeries(f, true), AllSeries(f, false);
    if |f.names| == 1 {
      TotalPoints(f, Rows(f));
      assert plain[0] == Series(Some(f.names[0]), Column(f, Some(0)));
      assert f.names == ["total"] <==> f.names[0] == "total";
      assert summed == plain <==> summed[0] == plain[0];
    } else {
      assert |plain| == |f.names|;
    }
  }

  // ----- the series of a table given row by row -----

  /** The rows one after the other. */
  function Flat(rows: seq<seq<Option<real>>>): seq<Option<real>> {
    if rows == [] then [] else rows[0] + Flat(rows[1..])
  }

  predicate Wide(rows: seq<seq<Option<real>>>, width: nat) { forall i :: 0 <= i < |rows| ==> |rows[i]| == width }

  lemma {:induction false} FlatCell(rows: seq<seq<Option<real>>>, width: nat, i: nat, c: nat)
    requires Wide(rows, width) && i < |rows| && c < width
    ensures |Flat(rows)| == |rows| * width
    ensures 0 <= i * width + c < |rows| * width && Flat(rows)[i * width + c] == rows[i][c]
  {
    var rest := rows[1..];
    FlatSize(rows, width);
    FlatSize(rest, width);
    CellInside(i, c, |rows|, width);
    if i == 0 {
      assert i * width + c == c;
    } else {
      assert forall k :: 0 <= k < |rest| ==> rest[k] == rows[k + 1];
      FlatCell(rest, width, i - 1, c);
      assert i * width + c == width + ((i - 1) * width + c);
    }
  }

  lemma {:induction false} FlatSize(rows: seq<seq<Option<real>>>, width: nat)
    requires Wide(rows, width)
    ensures |Flat(rows)| == |rows| * width
  {
    if rows != [] {
      FlatSize(rows[1..], width);
      assert |rows| * width == width + (|rows| - 1) * width;
    }
  }

  /** The values that are there and not negative, at `start`, `start + step` and so on. */
  function Timed(values: seq<Option<real>>, start: int, step: int): seq<Point> {
    if values == [] then []
    else
      var rest := Timed(values[1..], start + step, step);
      match values[0]
      case None => rest
      case Some(v) => if v < 0.0 then rest else [Point(start, v)] + rest
  }

  lemma {:induction false} TimedAppend(a: seq<Option<real>>, v: Option<real>, start: int, step: int)
    ensures Timed(a + [v], start, step) == Timed(a, start, step) + Timed([v], start + |a| * step, step)
  {
    if a == [] {
      assert a + [v] == [v];
    } else {
      assert (a + [v])[1..] == a[1..] + [v] && (a + [v])[0] == a[0];
      TimedAppend(a[1..], v, start + step, step);
      assert start + step + (|a| - 1) * step == start + |a| * step;
    }
  }

  lemma TimedOne(v: Option<real>, start: int, step: int)
    ensures Timed([v], start, step) == if Shown(v) then [Point(start, v.value)] else []
  {
    assert [v][1..] == [];
  }

  lemma {:induction false} PointsTimed(f: Fetched, c: Option<nat>, values: seq<Option<real>>, n: nat)
    requires Complete(f) && n <= Rows(f) == |values| && (c.Some? ==> c.value < |f.names|)
    requires forall i :: 0 <= i < |values| ==> Value(f, c, i) == values[i]
    ensures Points(f, c, n) == Timed(values[..n], f.start, f.step)
  {
    if n > 0 {
      PointsTimed(f, c, values, n - 1);
      assert values[..n] == values[..n - 1] + [values[n - 1]];
      TimedAppend(values[..n - 1], values[n - 1], f.start, f.step);
      TimedOne(values[n - 1], f.start + (n - 1) * f.step, f.step);
    }
  }

  /** What a row adds to the total: its first two values, a missing one as nothing. */
  function FirstTwo(row: seq<Option<real>>): real {
    match (if |row| == 0 then None else row[0], if |row| <= 1 then None else row[1])
    case (None, None) => 0.0
    case (Some(a), None) => a
    case (None, Some(b)) => b
    case (Some(a), Some(b)) => a + b
  }

  /** The table of one fetch: a row for each step of the range, a value in it for each data source. */
  predicate IsTable(f: Fetched, rows: seq<seq<Option<real>>>) {
    f.start <= f.end && f.step > 0 && |rows| == Rows(f) && Wide(rows, |f.names|) && f.data == Flat(rows)
  }

  lemma TableComplete(f: Fetched, rows: seq<seq<Option<real>>>)
    requires IsTable(f, rows)
    ensures Complete(f)
    ensures forall i, c :: 0 <= i < |rows| && 0 <= c < |f.names| ==> Cell(f, i, c) == rows[i][c]
  {
    FlatSize(rows, |f.names|);
    forall i, c | 0 <= i < |rows| && 0 <= c < |f.names| ensures Cell(f, i, c) == rows[i][c] {
      FlatCell(rows, |f.names|, i, c);
    }
  }

  /** Every matrix is the table of some rows. */
  lemma HasTable(f: Matrix) returns (rows: seq<seq<Option<real>>>)
    ensures IsTable(f, rows)
  {
    rows := CutRows(f.data, |f.names|, Rows(f));
  }

  lemma {:induction false} CutRows(data: seq<Option<real>>, width: nat, n: nat) returns (rows: seq<seq<Option<real>>>)
    requires |data| == n * width
    ensures |rows| == n && Wide(rows, width) && Flat(rows) == data
  {
    rows := [];
    if n > 0 {
      assert n * width == width + (n - 1) * width;
      CellsLeft(n, width);
      var more := CutRows(data[width..], width, n - 1);
      rows := [data[..width]] + more;
      assert rows[1..] == more;
    }
  }

  lemma CellsLeft(n: nat, width: nat)
    requires n > 0
    ensures width <= n * width
  {
  }

  /** Series `c` of a plain fetch is column `c` of the table, and the one series of a summed fetch the totals of
      its rows, without what is missing or negative, each value at the time of its row. */
  lemma SeriesOfTable(f: Fetched, rows: seq<seq<Option<real>>>)
    requires IsTable(f, rows) && Complete(f)
    ensures |AllSeries(f, false)| == |f.names|
    ensures forall c :: 0 <= c < |f.names| ==>
      AllSeries(f, false)[c] == Series(Some(f.names[c]), Timed(ColumnOf(rows, |f.names|, c), f.start, f.step))
    ensures AllSeries(f, true) == [Series(Some("total"), Timed(TotalsOf(rows), f.start, f.step))]
  {
    TableComplete(f, rows);
    forall c | 0 <= c < |f.names|
      ensures Column(f, Some(c)) == Timed(ColumnOf(rows, |f.names|, c), f.start, f.step)
    {
      var values := ColumnOf(rows, |f.names|, c);
      PointsTimed(f, Some(c), values, Rows(f));
      assert values[..Rows(f)] == values;
    }
    var totals := TotalsOf(rows);
    forall i | 0 <= i < |rows| ensures Value(f, None, i) == totals[i] { }
    PointsTimed(f, None, totals, Rows(f));
    assert totals[..Rows(f)] == totals;
  }

  function ColumnOf(rows: seq<seq<Option<real>>>, width: nat, c: nat): seq<Option<real>>
    requires Wide(rows, width) && c < width
  {
    seq(|rows|, i requires 0 <= i < |rows| => rows[i][c])
  }

  function TotalsOf(rows: seq<seq<Option<real>>>): seq<Option<real>> {
    seq(|rows|, i requires 0 <= i < |rows| => Some(FirstTwo(rows[i])))
  }
}
