/** The text of a Grafana query answer (src/handler.c, `grafana_query`), assembled piece by piece in a
    growable buffer, and the JSON value it stands for. `%g` is the parameter `fmt`. */
module GrafanaQuery {
  import opened CStrings
  import opened GrowBuffer
  import opened J = Json
  import opened JsonText
  import opened MetricValues
  import opened Places
  import Utf8

  /** A requested target and what fetching it gave; nothing also for an unknown metric. */
  datatype Answered = Answered(target: string, data: Option<seq<Series>>)

  /** A series of the answer. */
  datatype Row = Row(name: string, points: seq<Point>)

  // ----- the value answered -----

  function RowOf(s: Series, target: string): seq<Row> {
    if s.points == [] then [] else [Row(if s.name.Some? then s.name.value else target, s.points)]
  }

  function RowsOf(series: seq<Series>, target: string): seq<Row> {
    if series == [] then []
    else
      var last := series[|series| - 1];
      RowsOf(series[..|series| - 1], target) + RowOf(last, target)
  }

  /** The non-empty series of every target, in order; a series without a name goes by its target. */
  function Rows(answers: seq<Answered>): seq<Row> {
    if answers == [] then []
    else
      var last := answers[|answers| - 1];
      Rows(answers[..|answers| - 1]) + (if last.data.None? then [] else RowsOf(last.data.value, last.target))
  }

  /** `[value, epoch in milliseconds]` */
  function PointJson(p: Point, fmt: real -> string): Json {
    JArr([JNum(fmt(p.value)), JNum(IntText(p.timestamp * 1000))])
  }

  function PointsJson(points: seq<Point>, fmt: real -> string): seq<Json> {
    seq(|points|, i requires 0 <= i < |points| => PointJson(points[i], fmt))
  }

  function RowJson(r: Row, fmt: real -> string): Json {
    JObj([Field("target", JStr(r.name)), Field("datapoints", JArr(PointsJson(r.points, fmt)))])
  }

  function RowsJson(rows: seq<Row>, fmt: real -> string): seq<Json> {
    seq(|rows|, i requires 0 <= i < |rows| => RowJson(rows[i], fmt))
  }

  function AnswerJson(answers: seq<Answered>, fmt: real -> string): Json { JArr(RowsJson(Rows(answers), fmt)) }

  // ----- printing an array element by element -----

  /** The elements printed so far, with commas between them. */
  function Joined(items: seq<Json>): string {
    if items == [] then ""
    else Joined(items[..|items| - 1]) + (if |items| == 1 then "" else ",") + Print(items[|items| - 1])
  }

  lemma JoinedSnoc(items: seq<Json>, x: Json)
    ensures Joined(items + [x]) == Joined(items) + (if items == [] then "" else ",") + Print(x)
  {
    assert (items + [x])[..|items|] == items;
  }

  lemma {:induction false} JoinedCons(x: Json, items: seq<Json>)
    requires items != []
    ensures Joined([x] + items) == Print(x) + "," + Joined(items)
  {
    var last, init := items[|items| - 1], items[..|items| - 1];
    assert [x] + items == ([x] + init) + [last] && items == init + [last];
    JoinedSnoc([x] + init, last);
    JoinedSnoc(init, last);
    if init == [] {
      assert [x] + init == [x];
      JoinedOne(x);
    } else {
      JoinedCons(x, init);
      Regroup(Print(x), ",", Joined(init), ",", Print(last));
    }
  }

  lemma JoinedOne(x: Json)
    ensures Joined([x]) == Print(x)
  {
    JoinedSnoc([], x);
    assert [] + [x] == [x];
  }

  lemma Regroup(a: string, b: string, c: string, d: string, e: string)
    ensures a + b + c + d + e == a + b + (c + d + e)
  {
  }

  lemma {:induction false} ItemsJoined(items: seq<Json>)
    requires items != []
    ensures PrintItems(items) == Joined(items) + "]"
  {
    if |items| == 1 {
      assert items == [] + [items[0]];
      JoinedSnoc([], items[0]);
    } else {
      ItemsJoined(items[1..]);
      assert items == [items[0]] + items[1..];
      JoinedCons(items[0], items[1..]);
      Bracketed(Print(items[0]), Joined(items[1..]));
    }
  }

  lemma Bracketed(a: string, b: string)
    ensures a + ("," + (b + "]")) == a + "," + b + "]"
  {
  }

  lemma ListText(items: seq<Json>)
    ensures Print(JArr(items)) == "[" + Joined(items) + "]"
  {
    if items != [] {
      ItemsJoined(items);
    }
  }

  lemma PointText(p: Point, fmt: real -> string)
    ensures Print(PointJson(p, fmt)) == "[" + fmt(p.value) + "," + IntText(p.timestamp * 1000) + "]"
  {
    var a, b := JNum(fmt(p.value)), JNum(IntText(p.timestamp * 1000));
    ListText([a, b]);
    assert [a, b] == [a] + [b] && [a] == [] + [a];
    JoinedSnoc([a], b);
    JoinedSnoc([], a);
  }

  lemma RowText(r: Row, fmt: real -> string)
    ensures Print(RowJson(r, fmt)) == TARGET + r.name + DATAPOINTS + Joined(PointsJson(r.points, fmt)) + "]}"
  {
    var a, b := Field("target", JStr(r.name)), Field("datapoints", JArr(PointsJson(r.points, fmt)));
    ListText(PointsJson(r.points, fmt));
    TwoFields(a, b);
    assert PrintField(a) == ("\"" + "target" + "\":") + ("\"" + r.name + "\"");
    assert PrintField(b) == ("\"" + "datapoints" + "\":") + ("[" + Joined(PointsJson(r.points, fmt)) + "]");
    Literals(r.name, Joined(PointsJson(r.points, fmt)));
  }

  const TARGET := "{\"target\":\""

  const DATAPOINTS := "\",\"datapoints\":["

  lemma TwoFields(a: J.Field, b: J.Field)
    ensures Print(JObj([a, b])) == "{" + (PrintField(a) + ("," + (PrintField(b) + "}")))
  {
    assert [a, b][1..] == [b];
    assert PrintFields([b]) == PrintField(b) + "}";
    assert PrintFields([a, b]) == PrintField(a) + ("," + PrintFields([b]));
  }

  lemma Literals(name: string, points: string)
    ensures "{" + (("\"" + "target" + "\":") + ("\"" + name + "\"")
                + ("," + (("\"" + "datapoints" + "\":") + ("[" + points + "]") + "}")))
         == TARGET + name + DATAPOINTS + points + "]}"
  {
    assert "\"" + "target" + "\":" == "\"target\":" && "\"" + "datapoints" + "\":" == "\"datapoints\":";
  }

  // ----- assembling the text -----

  /** The points written so far: each with a comma behind it. */
  function PointsText(points: seq<Point>, fmt: real -> string): string {
    Joined(PointsJson(points, fmt)) + (if points == [] then "" else ",")
  }

  /** `[%g,%lld],` */
  function PointChunk(p: Point, fmt: real -> string): string {
    "[" + fmt(p.value) + "," + IntText(p.timestamp * 1000) + "],"
  }

  lemma PointsTextSnoc(points: seq<Point>, p: Point, fmt: real -> string)
    ensures PointsText(points + [p], fmt) == PointsText(points, fmt) + PointChunk(p, fmt)
  {
    assert PointsJson(points + [p], fmt) == PointsJson(points, fmt) + [PointJson(p, fmt)];
    JoinedSnoc(PointsJson(points, fmt), PointJson(p, fmt));
    PointText(p, fmt);
    PointComma(Joined(PointsJson(points, fmt)), if points == [] then "" else ",",
               "[" + fmt(p.value) + "," + IntText(p.timestamp * 1000));
  }

  lemma PointComma(a: string, sep: string, b: string)
    ensures a + sep + (b + "]") + "," == a + sep + (b + "],")
  {
    assert b + "]" + "," == b + "],";
  }

  lemma ChunkAdds(start: string, points: seq<Point>, p: nat, fmt: real -> string)
    requires p < |points|
    ensures start + PointsText(points[..p], fmt) + PointChunk(points[p], fmt)
         == start + PointsText(points[..p + 1], fmt)
  {
    PointsTextSnoc(points[..p], points[p], fmt);
    assert points[..p] + [points[p]] == points[..p + 1];
    Assoc(start, PointsText(points[..p], fmt), PointChunk(points[p], fmt));
  }

  /** The points of one series, then the trimmed comma and the closing brackets. */
  method AppendPoints(out: Buffer, points: seq<Point>, fmt: real -> string)
    requires out.Valid() && points != []
    modifies out, out.data
    ensures out.Valid() && (out.data == old(out.data) || fresh(out.data))
    ensures out.Contents() == old(out.Contents()) + Joined(PointsJson(points, fmt)) + "]}"
  {
    ghost var start := out.Contents();
    assert start + PointsText(points[..0], fmt) == start;
    for p := 0 to |points|
      invariant out.Valid() && (out.data == old(out.data) || fresh(out.data))
      invariant out.Contents() == start + PointsText(points[..p], fmt)
    {
      ChunkAdds(start, points, p, fmt);
      var _ := out.Append(PointChunk(points[p], fmt));
    }
    assert points[..|points|] == points;
    Assoc(start, Joined(PointsJson(points, fmt)), ",");
    CommaLast(start + Joined(PointsJson(points, fmt)));
    out.TrimComma();
    var _ := out.Append("]}");
  }

  lemma CommaLast(s: string)
    ensures (s + ",")[|s + ","| - 1] == ',' && (s + ",")[..|s + ","| - 1] == s
  {
  }

  /** One series: `%s{"target":"%s","datapoints":[`, the points, `]}`. */
  method AppendRow(out: Buffer, hasAny: bool, r: Row, fmt: real -> string)
    requires out.Valid() && r.points != []
    modifies out, out.data
    ensures out.Valid() && (out.data == old(out.data) || fresh(out.data))
    ensures out.Contents() == old(out.Contents()) + (if hasAny then "," else "") + Print(RowJson(r, fmt))
  {
    var sep := if hasAny then "," else "";
    ghost var start := out.Contents();
    var _ := out.Append(sep + TARGET + r.name + DATAPOINTS);
    AppendPoints(out, r.points, fmt);
    RowText(r, fmt);
    RowPieces(start, sep, r.name, Joined(PointsJson(r.points, fmt)));
  }

  lemma RowPieces(start: string, sep: string, name: string, points: string)
    ensures start + (sep + TARGET + name + DATAPOINTS) + points + "]}"
         == start + sep + (TARGET + name + DATAPOINTS + points + "]}")
  {
    Pieces(start, sep, TARGET, name, DATAPOINTS, points, "]}");
  }

  lemma Pieces(a: string, b: string, c: string, d: string, e: string, f: string, g: string)
    ensures a + (b + c + d + e) + f + g == a + b + (c + d + e + f + g)
  {
  }

  /** The rows written so far, after the opening bracket. */
  ghost predicate Holds(out: Buffer, rows: seq<Row>, hasAny: bool, fmt: real -> string)
    reads out, out.data
  {
    out.Valid() && out.Contents() == "[" + Joined(RowsJson(rows, fmt)) && hasAny == (rows != [])
  }

  lemma RowsSnoc(rows: seq<Row>, r: Row, fmt: real -> string)
    ensures Joined(RowsJson(rows + [r], fmt))
         == Joined(RowsJson(rows, fmt)) + (if rows == [] then "" else ",") + Print(RowJson(r, fmt))
  {
    assert RowsJson(rows + [r], fmt) == RowsJson(rows, fmt) + [RowJson(r, fmt)];
    JoinedSnoc(RowsJson(rows, fmt), RowJson(r, fmt));
  }

  lemma AfterBracket(open: string, a: string, sep: string, b: string)
    ensures open + a + sep + b == open + (a + sep + b)
  {
  }

  method AppendNext(out: Buffer, hasAny: bool, r: Row, fmt: real -> string, ghost rows: seq<Row>)
    requires Holds(out, rows, hasAny, fmt) && r.points != []
    modifies out, out.data
    ensures out.data == old(out.data) || fresh(out.data)
    ensures Holds(out, rows + [r], true, fmt)
  {
    RowsSnoc(rows, r, fmt);
    AfterBracket("[", Joined(RowsJson(rows, fmt)), if rows == [] then "" else ",", Print(RowJson(r, fmt)));
    AppendRow(out, hasAny, r, fmt);
  }

  lemma RowsOfStep(rows: seq<Row>, series: seq<Series>, s: nat, target: string)
    requires s < |series|
    ensures rows + RowsOf(series[..s + 1], target) == rows + RowsOf(series[..s], target) + RowOf(series[s], target)
  {
    assert series[..s + 1][..s] == series[..s];
  }

  /** One series, if it has points. */
  method AppendOne(out: Buffer, hasAny: bool, s: Series, target: string, fmt: real -> string, ghost rows: seq<Row>)
    returns (any: bool)
    requires Holds(out, rows, hasAny, fmt)
    modifies out, out.data
    ensures out.data == old(out.data) || fresh(out.data)
    ensures Holds(out, rows + RowOf(s, target), any, fmt)
  {
    any := hasAny;
    if s.points == [] {
      assert rows + RowOf(s, target) == rows;
    } else {
      AppendNext(out, any, Row(if s.name.Some? then s.name.value else target, s.points), fmt, rows);
      any := true;
    }
  }

  /** All non-empty series fetched for one target. */
  method AppendSeries(out: Buffer, hasAny: bool, series: seq<Series>, target: string, fmt: real -> string,
                      ghost rows: seq<Row>) returns (any: bool)
    requires Holds(out, rows, hasAny, fmt)
    modifies out, out.data
    ensures out.data == old(out.data) || fresh(out.data)
    ensures Holds(out, rows + RowsOf(series, target), any, fmt)
  {
    any := hasAny;
    ghost var done := rows;
    for s := 0 to |series|
      invariant out.data == old(out.data) || fresh(out.data)
      invariant done == rows + RowsOf(series[..s], target)
      invariant Holds(out, done, any, fmt)
    {
      RowsOfStep(rows, series, s, target);
      any := AppendOne(out, any, series[s], target, fmt, done);
      done := done + RowOf(series[s], target);
    }
    assert series[..|series|] == series;
  }

  /** The answer text is the print of the JSON array of the non-empty series. */
  method Query(answers: seq<Answered>, fmt: real -> string) returns (out: Buffer)
    ensures fresh(out) && fresh(out.data) && out.Valid()
    ensures out.Contents() == Print(AnswerJson(answers, fmt))
  {
    out := new Buffer(4096);
    var _ := out.Append("[");
    var hasAny := false;
    assert RowsJson([], fmt) == [];
    for i := 0 to |answers|
      invariant fresh(out) && fresh(out.data)
      invariant Holds(out, Rows(answers[..i]), hasAny, fmt)
    {
      assert answers[..i + 1][..i] == answers[..i];
      assert answers[i].data.None? ==> Rows(answers[..i + 1]) == Rows(answers[..i]);
      if answers[i].data.Some? {
        hasAny := AppendSeries(out, hasAny, answers[i].data.value, answers[i].target, fmt, Rows(answers[..i]));
      }
    }
    assert answers[..|answers|] == answers;
    ListText(RowsJson(Rows(answers), fmt));
    var _ := out.Append("]");
  }

  // ----- what a reader gets back -----

  /** A name in UTF-8 that needs no escapes, and values that `%g` writes as JSON numbers. */
  predicate Sendable(r: Row, fmt: real -> string) {
    PlainText(r.name) && Utf8.Valid(r.name) && Numeric(r.points, fmt)
  }

  predicate Numeric(points: seq<Point>, fmt: real -> string) {
    forall i :: 0 <= i < |points| ==> IsNumber(fmt(points[i].value))
  }

  /** What a value needs to be read back. */
  predicate Good(v: Json) { WellFormed(v) && Encoded(v) }

  lemma ArrayGood(items: seq<Json>)
    ensures Good(JArr(items)) <==> forall i :: 0 <= i < |items| ==> Good(items[i])
  {
    assert WellFormed(JArr(items)) <==> AllWellFormed(items);
    assert Encoded(JArr(items)) <==> AllEncoded(items);
  }

  lemma PointGood(p: Point, fmt: real -> string)
    ensures Good(PointJson(p, fmt)) <==> IsNumber(fmt(p.value))
  {
    IntNumber(p.timestamp * 1000);
    var items := PointJson(p, fmt).items;
    assert Good(items[0]) <==> IsNumber(fmt(p.value));
    assert Good(items[1]);
    ArrayGood(items);
  }

  lemma PointsGood(points: seq<Point>, fmt: real -> string)
    ensures Good(JArr(PointsJson(points, fmt))) <==> Numeric(points, fmt)
  {
    var items := PointsJson(points, fmt);
    forall i | 0 <= i < |points| ensures Good(items[i]) <==> IsNumber(fmt(points[i].value)) {
      PointGood(points[i], fmt);
    }
    ArrayGood(items);
  }

  lemma FieldsGood(a: J.Field, b: J.Field)
    ensures Good(JObj([a, b])) <==>
      && PlainText(a.name) && Utf8.Valid(a.name) && Good(a.value)
      && PlainText(b.name) && Utf8.Valid(b.name) && Good(b.value)
  {
    var fields := [a, b];
    assert fields[0] == a && fields[1] == b;
    assert WellFormed(JObj(fields)) <==> FieldsWellFormed(fields);
    assert Encoded(JObj(fields)) <==> FieldsEncoded(fields);
  }

  lemma KeyGood(key: string)
    requires forall c :: c in key ==> 'a' <= c <= 'z'
    ensures PlainText(key) && Utf8.Valid(key)
  {
    Utf8.AsciiValid(key);
  }

  lemma StringGood(text: string)
    ensures Good(JStr(text)) <==> PlainText(text) && Utf8.Valid(text)
  {
  }

  lemma NamedGood(v: Json, key: string, other: string, r: Row, fmt: real -> string)
    requires v == JObj([Field(key, JStr(r.name)), Field(other, JArr(PointsJson(r.points, fmt)))])
    requires PlainText(key) && Utf8.Valid(key) && PlainText(other) && Utf8.Valid(other)
    ensures Good(v) <==> Sendable(r, fmt)
  {
    PointsGood(r.points, fmt);
    StringGood(r.name);
    FieldsGood(Field(key, JStr(r.name)), Field(other, JArr(PointsJson(r.points, fmt))));
  }

  lemma RowGood(r: Row, fmt: real -> string)
    ensures Good(RowJson(r, fmt)) <==> Sendable(r, fmt)
  {
    var v, target, datapoints := RowJson(r, fmt), "target", "datapoints";
    KeyGood(target);
    KeyGood(datapoints);
    NamedGood(v, target, datapoints, r, fmt);
  }

  /** A JSON reader of the answer gets back exactly the non-empty series, in order, with their points in
      order: precisely when every name shown is in UTF-8 and needs no escape and every value is written as
      a number. */
  lemma AnswerParses(answers: seq<Answered>, fmt: real -> string)
    ensures Parse(Print(AnswerJson(answers, fmt))) == Some(AnswerJson(answers, fmt))
       <==> forall r :: r in Rows(answers) ==> Sendable(r, fmt)
  {
    var rows, items := Rows(answers), RowsJson(Rows(answers), fmt);
    ReadsBack(JArr(items));
    forall i | 0 <= i < |rows| ensures Good(items[i]) <==> Sendable(rows[i], fmt) {
      RowGood(rows[i], fmt);
    }
    ArrayGood(items);
    assert Good(JArr(items)) <==> forall i :: 0 <= i < |rows| ==> Sendable(rows[i], fmt);
  }

  // ----- which series the answer shows, and how -----

  /** A series together with the target it was fetched for. */
  datatype Pair = Pair(target: string, series: Series)

  function Of(target: string, series: seq<Series>): seq<Pair> {
    if series == [] then [] else [Pair(target, series[0])] + Of(target, series[1..])
  }

  /** All series that were fetched, target by target. */
  function Pairs(answers: seq<Answered>): seq<Pair> {
    if answers == [] then []
    else (if answers[0].data.None? then [] else Of(answers[0].target, answers[0].data.value)) + Pairs(answers[1..])
  }

  function RowsFor(ps: seq<Pair>): seq<Row> {
    if ps == [] then [] else RowOf(ps[0].series, ps[0].target) + RowsFor(ps[1..])
  }

  lemma {:induction false} RowsForAppend(a: seq<Pair>, b: seq<Pair>)
    ensures RowsFor(a + b) == RowsFor(a) + RowsFor(b)
  {
    if a == [] {
      assert a + b == b;
    } else {
      assert (a + b)[1..] == a[1..] + b;
      RowsForAppend(a[1..], b);
    }
  }

  lemma {:induction false} OfAppend(target: string, a: seq<Series>, b: seq<Series>)
    ensures Of(target, a + b) == Of(target, a) + Of(target, b)
  {
    if a == [] {
      assert a + b == b;
    } else {
      assert (a + b)[1..] == a[1..] + b;
      OfAppend(target, a[1..], b);
    }
  }

  lemma RowsForOne(p: Pair)
    ensures RowsFor([p]) == RowOf(p.series, p.target)
  {
    assert [p][1..] == [];
  }

  lemma {:induction false} RowsOfPairs(series: seq<Series>, target: string)
    ensures RowsOf(series, target) == RowsFor(Of(target, series))
  {
    if series != [] {
      var n := |series| - 1;
      assert series == series[..n] + [series[n]];
      RowsOfPairs(series[..n], target);
      OfAppend(target, series[..n], [series[n]]);
      OfOne(target, series[n]);
      RowsForOne(Pair(target, series[n]));
      RowsForAppend(Of(target, series[..n]), [Pair(target, series[n])]);
    }
  }

  lemma OfOne(target: string, s: Series)
    ensures Of(target, [s]) == [Pair(target, s)]
  {
    assert [s][1..] == [];
  }

  lemma {:induction false} PairsAppend(a: seq<Answered>, b: seq<Answered>)
    ensures Pairs(a + b) == Pairs(a) + Pairs(b)
  {
    if a == [] {
      assert a + b == b;
    } else {
      assert (a + b)[1..] == a[1..] + b;
      PairsAppend(a[1..], b);
    }
  }

  lemma PairsOne(a: Answered)
    ensures Pairs([a]) == if a.data.None? then [] else Of(a.target, a.data.value)
  {
    assert [a][1..] == [];
  }

  lemma {:induction false} RowsArePairs(answers: seq<Answered>)
    ensures Rows(answers) == RowsFor(Pairs(answers))
  {
    if answers != [] {
      var n := |answers| - 1;
      var last := answers[n];
      assert answers == answers[..n] + [last];
      RowsArePairs(answers[..n]);
      PairsAppend(answers[..n], [last]);
      PairsOne(last);
      RowsForAppend(Pairs(answers[..n]), Pairs([last]));
      if last.data.Some? {
        RowsOfPairs(last.data.value, last.target);
      }
    }
  }

  /** A row shows a pair: its points, under the name of the series if it has one, else of the target. */
  predicate RowShows(r: Row, p: Pair) {
    r.points == p.series.points
    && (p.series.name.Some? ==> r.name == p.series.name.value)
    && (p.series.name.None? ==> r.name == p.target)
  }

  function HasPoints(): Pair -> bool { (p: Pair) => p.series.points != [] }

  lemma {:induction false} RowsShowPairs(ps: seq<Pair>) returns (at: seq<nat>)
    ensures PlacesOf(ps, HasPoints(), at) && |at| == |RowsFor(ps)|
    ensures forall k :: 0 <= k < |at| ==> RowShows(RowsFor(ps)[k], ps[at[k]])
  {
    if ps == [] {
      at := [];
    } else {
      var n := |ps| - 1;
      var pre, p := ps[..n], ps[n];
      assert ps == pre + [p];
      RowsForAppend(pre, [p]);
      RowsForOne(p);
      at := RowsShowPairs(pre);
      PlacesSnoc(pre, p, HasPoints(), at);
      at := Longer(at, p.series.points != [], n);
    }
  }

  /** The rows of the answer are all series with points, in the order of the targets and of their series, each
      under its own name, and under the name of its target only when it has none. */
  lemma RowsShown(answers: seq<Answered>) returns (at: seq<nat>)
    ensures PlacesOf(Pairs(answers), HasPoints(), at) && |at| == |Rows(answers)|
    ensures forall k :: 0 <= k < |at| ==> RowShows(Rows(answers)[k], Pairs(answers)[at[k]])
  {
    RowsArePairs(answers);
    at := RowsShowPairs(Pairs(answers));
  }

  /** A point in JSON: its value as `%g` writes it, then its time in milliseconds. */
  predicate PointShows(j: Json, p: Point, fmt: real -> string) {
    j.JArr? && |j.items| == 2 && j.items[0] == JNum(fmt(p.value))
    && j.items[1].JNum? && IsNumber(j.items[1].token) && Atoi(j.items[1].token) == 1000 * p.timestamp
  }

  /** A series in JSON: an object with a target and the data points. */
  predicate SeriesShows(j: Json, p: Pair, fmt: real -> string) {
    j.JObj? && |j.fields| == 2 && j.fields[0].name == "target" && j.fields[1].name == "datapoints"
    && j.fields[0].value == JStr(if p.series.name.None? then p.target else p.series.name.value)
    && j.fields[1].value.JArr? && |j.fields[1].value.items| == |p.series.points|
    && forall i :: 0 <= i < |p.series.points| ==> PointShows(j.fields[1].value.items[i], p.series.points[i], fmt)
  }

  lemma PointJsonShows(p: Point, fmt: real -> string)
    ensures PointShows(PointJson(p, fmt), p, fmt)
  {
    IntNumber(p.timestamp * 1000);
    AtoiIntText(p.timestamp * 1000);
  }

  lemma RowJsonShows(r: Row, p: Pair, fmt: real -> string)
    requires RowShows(r, p)
    ensures SeriesShows(RowJson(r, fmt), p, fmt)
  {
    forall i | 0 <= i < |r.points| ensures PointShows(PointsJson(r.points, fmt)[i], r.points[i], fmt) {
      PointJsonShows(r.points[i], fmt);
    }
  }

  /** What a JSON reader gets from the answer text, when everything can be sent: one object for each series
      with points, in order, with its own name and all its points. */
  lemma AnswerShows(answers: seq<Answered>, fmt: real -> string, text: string) returns (v: Json, at: seq<nat>)
    requires text == Print(AnswerJson(answers, fmt)) && forall r :: r in Rows(answers) ==> Sendable(r, fmt)
    ensures Parse(text) == Some(v) && v.JArr? && |v.items| == |at| && PlacesOf(Pairs(answers), HasPoints(), at)
    ensures forall k :: 0 <= k < |at| ==> SeriesShows(v.items[k], Pairs(answers)[at[k]], fmt)
  {
    v := AnswerJson(answers, fmt);
    AnswerParses(answers, fmt);
    at := RowsShown(answers);
    forall k | 0 <= k < |at| ensures SeriesShows(v.items[k], Pairs(answers)[at[k]], fmt) {
      RowJsonShows(Rows(answers)[k], Pairs(answers)[at[k]], fmt);
    }
  }
}
