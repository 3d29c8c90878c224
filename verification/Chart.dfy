/** Chart scaling (src/handler.c, size clamping; src/scripts/generate_svg.js, `generateSVG`): margins,
    collecting and transforming the data, the value and time range, and the plotted coordinates. */
module Chart {
  import opened CStrings

  /** A point as it comes in; a missing value (NaN) is `None`. */
  datatype Raw = Raw(time: int, value: Option<real>)

  datatype Pt = Pt(time: int, value: real)

  datatype Transform = Keep | Multiply(k: real) | Divide(k: real)

  /** The script replaces a factor of zero by one. */
  predicate Defined(t: Transform) { t.Keep? || t.k != 0.0 }

  predicate Positive(t: Transform) { t.Keep? || t.k > 0.0 }

  function Apply(t: Transform, v: real): real
    requires Defined(t)
  {
    match t
    case Keep => v
    case Multiply(k) => v * k
    case Divide(k) => v / k
  }

  // ----- size and margins -----

  /** `handler_process`: default, then bounds. */
  function ClampWidth(w: int): (r: int)
    ensures 200 <= r <= 1600
  {
    var w := if w <= 0 then 800 else w;
    if w < 200 then 200 else if w > 1600 then 1600 else w
  }

  function ClampHeight(h: int): (r: int)
    ensures 120 <= r <= 800
  {
    var h := if h <= 0 then 450 else h;
    if h < 120 then 120 else if h > 800 then 800 else h
  }

  function Max(a: real, b: real): real { if a > b then a else b }

  function Min(a: real, b: real): real { if a < b then a else b }

  function GraphWidth(width: int): real {
    width as real - Max(50.0, width as real * 0.08) - Max(30.0, width as real * 0.05)
  }

  function GraphHeight(height: int): real {
    height as real - Max(30.0, height as real * 0.08) - Max(65.0, height as real * 0.18)
  }

  /** Whatever size is asked for, some plot area is left. A size within the limits is kept, one beyond them is cut
      to the limit, and without one there is a default. */
  lemma PlotArea(w: int, h: int)
    ensures 200 <= w <= 1600 ==> ClampWidth(w) == w
    ensures 120 <= h <= 800 ==> ClampHeight(h) == h
    ensures 0 < w < 200 ==> ClampWidth(w) == 200
    ensures 0 < h < 120 ==> ClampHeight(h) == 120
    ensures w > 1600 ==> ClampWidth(w) == 1600
    ensures h > 800 ==> ClampHeight(h) == 800
    ensures w <= 0 ==> ClampWidth(w) == 800
    ensures h <= 0 ==> ClampHeight(h) == 450
    ensures GraphWidth(ClampWidth(w)) >= 120.0 && GraphHeight(ClampHeight(h)) >= 25.0
  {
    var width, height := ClampWidth(w) as real, ClampHeight(h) as real;
    assert 200.0 <= width && 120.0 <= height;
  }

  /** On large charts the margins take 13 and 26 percent, on small ones 80 and 95 units; they are never smaller
      than either. */
  lemma Margins(w: int, h: int)
    requires w >= 0 && h >= 0
    ensures w >= 625 ==> 100.0 * GraphWidth(w) == 87.0 * w as real
    ensures w <= 600 ==> GraphWidth(w) == (w - 80) as real
    ensures h >= 375 ==> 100.0 * GraphHeight(h) == 74.0 * h as real
    ensures h <= 361 ==> GraphHeight(h) == (h - 95) as real
    ensures 100.0 * GraphWidth(w) <= 87.0 * w as real && GraphWidth(w) <= (w - 80) as real
    ensures 100.0 * GraphHeight(h) <= 74.0 * h as real && GraphHeight(h) <= (h - 95) as real
  {
  }

  // ----- the data -----

  /** The points that set the scale: those whose value is there and not negative. */
  function Shown(data: seq<Raw>): seq<Pt> {
    if data == [] then []
    else
      var d := data[|data| - 1];
      Shown(data[..|data| - 1]) + (if d.value.Some? && d.value.value >= 0.0 then [Pt(d.time, d.value.value)] else [])
  }

  function Collected(series: seq<seq<Raw>>): seq<Pt> {
    if series == [] then [] else Collected(series[..|series| - 1]) + Shown(series[|series| - 1])
  }

  function Mapped(t: Transform, ps: seq<Pt>): seq<Pt>
    requires Defined(t)
  {
    seq(|ps|, i requires 0 <= i < |ps| => Pt(ps[i].time, Apply(t, ps[i].value)))
  }

  /** The points that are drawn: those whose transformed value is there and not negative. */
  function Drawn(t: Transform, data: seq<Raw>): seq<Pt>
    requires Defined(t)
  {
    if data == [] then []
    else
      var d := data[|data| - 1];
      Drawn(t, data[..|data| - 1]) +
      (if d.value.Some? && Apply(t, d.value.value) >= 0.0 then [Pt(d.time, Apply(t, d.value.value))] else [])
  }

  lemma KeepsSign(t: Transform, v: real)
    requires Positive(t)
    ensures Apply(t, v) >= 0.0 <==> v >= 0.0
  {
    if t.Divide? {
      var q := v / t.k;
      assert q * t.k == v;
    }
  }

  /** Drawing and scaling filter at different moments, before and after the transform; with a positive
      factor they agree on the points and on their values. */
  lemma {:induction false} DrawnIsScaled(t: Transform, data: seq<Raw>)
    requires Positive(t)
    ensures Drawn(t, data) == Mapped(t, Shown(data))
  {
    if data != [] {
      var d := data[|data| - 1];
      DrawnIsScaled(t, data[..|data| - 1]);
      if d.value.Some? {
        KeepsSign(t, d.value.value);
      }
    }
  }

  /** They agree on all data only then. */
  lemma AgreeExactly(t: Transform)
    requires Defined(t)
    ensures (forall data :: Drawn(t, data) == Mapped(t, Shown(data))) <==> Positive(t)
  {
    if Positive(t) {
      forall data ensures Drawn(t, data) == Mapped(t, Shown(data)) { DrawnIsScaled(t, data); }
    } else {
      var data := [Raw(0, Some(1.0))];
      var none: seq<Raw> := [];
      assert data[..0] == none;
      NegativeApply(t);
      assert |Shown(data)| == 1 && |Drawn(t, data)| == 0;
    }
  }

  lemma NegativeApply(t: Transform)
    requires !t.Keep? && t.k < 0.0
    ensures Apply(t, 1.0) < 0.0
  {
    if t.Divide? {
      var q := 1.0 / t.k;
      assert q * t.k == 1.0;
    }
  }

  // ----- the loops -----

  method CollectData(series: seq<seq<Raw>>) returns (all: seq<Pt>)
    ensures all == Collected(series)
  {
    all := [];
    for si := 0 to |series|
      invariant all == Collected(series[..si])
    {
      assert series[..si + 1][..si] == series[..si];
      var data := series[si];
      for di := 0 to |data|
        invariant all == Collected(series[..si]) + Shown(data[..di])
      {
        assert data[..di + 1][..di] == data[..di];
        var d := data[di];
        if d.value.Some? && d.value.value >= 0.0 {
          all := all + [Pt(d.time, d.value.value)];
        }
      }
      assert data[..|data|] == data;
    }
    assert series[..|series|] == series;
  }

  method TransformAll(all: array<Pt>, t: Transform)
    requires Defined(t)
    modifies all
    ensures all[..] == Mapped(t, old(all[..]))
    ensures forall i :: 0 <= i < all.Length ==> all[i].time == old(all[i].time)
    ensures t.Keep? ==> all[..] == old(all[..])
    ensures t.Multiply? ==> forall i :: 0 <= i < all.Length ==> all[i].value == old(all[i].value) * t.k
    ensures t.Divide? ==> forall i :: 0 <= i < all.Length ==> all[i].value * t.k == old(all[i].value)
  {
    if !t.Keep? {
      for i := 0 to all.Length
        invariant forall j :: 0 <= j < i ==> all[j] == Pt(old(all[j]).time, Apply(t, old(all[j]).value))
        invariant forall j :: i <= j < all.Length ==> all[j] == old(all[j])
      {
        all[i] := Pt(all[i].time, Apply(t, all[i].value));
      }
    }
  }

  /** The extremes of the data. */
  datatype Bounds = Bounds(minVal: real, maxVal: real, minTime: int, maxTime: int)

  predicate Covers(b: Bounds, p: Pt) { b.minVal <= p.value <= b.maxVal && b.minTime <= p.time <= b.maxTime }

  /** Bounds that some points reach. */
  predicate Tight(b: Bounds, ps: seq<Pt>) {
    (forall i :: 0 <= i < |ps| ==> Covers(b, ps[i]))
    && (exists i :: 0 <= i < |ps| && ps[i].value == b.minVal)
    && (exists i :: 0 <= i < |ps| && ps[i].value == b.maxVal)
    && (exists i :: 0 <= i < |ps| && ps[i].time == b.minTime)
    && (exists i :: 0 <= i < |ps| && ps[i].time == b.maxTime)
  }

  /** `None` stands for the infinities the search starts from. */
  method FindBounds(all: array<Pt>) returns (b: Option<Bounds>)
    ensures b.Some? <==> all.Length > 0
    ensures b.Some? ==> Tight(b.value, all[..])
  {
    b := None;
    for i := 0 to all.Length
      invariant b.Some? <==> i > 0
      invariant b.Some? ==> Tight(b.value, all[..i])
    {
      var d := all[i];
      assert all[..i + 1] == all[..i] + [d];
      if b.Some? {
        StillTight(b.value, all[..i], d);
      }
      b := Some(Widened(b, d));
    }
    assert all[..all.Length] == all[..];
  }

  /** The four comparisons of one loop step. */
  function Widened(b: Option<Bounds>, d: Pt): Bounds {
    if b.None? then Bounds(d.value, d.value, d.time, d.time)
    else
      Bounds(if d.value < b.value.minVal then d.value else b.value.minVal,
             if d.value > b.value.maxVal then d.value else b.value.maxVal,
             if d.time < b.value.minTime then d.time else b.value.minTime,
             if d.time > b.value.maxTime then d.time else b.value.maxTime)
  }

  lemma StillTight(b: Bounds, ps: seq<Pt>, d: Pt)
    requires Tight(b, ps)
    ensures Tight(Widened(Some(b), d), ps + [d])
  {
    var qs := ps + [d];
    assert qs[|ps|] == d && forall i :: 0 <= i < |ps| ==> qs[i] == ps[i];
  }

  // ----- the scale -----

  /** `minVal`/`maxVal` after padding, or 0 and 100 for a percentage. */
  function Padded(b: Bounds, isPercentage: bool): Bounds {
    if isPercentage then b.(minVal := 0.0, maxVal := 100.0)
    else
      var padding := (b.maxVal - b.minVal) * 0.1;
      var fallback := (if b.maxVal < 0.0 then -b.maxVal else b.maxVal) * 0.1;
      var padding := if padding != 0.0 then padding else if fallback != 0.0 then fallback else 1.0;
      b.(minVal := Max(0.0, b.minVal - padding), maxVal := b.maxVal + padding)
  }

  /** The value range is never empty, and without a percentage axis every value lies inside it. */
  lemma PaddedRange(b: Bounds, isPercentage: bool)
    requires 0.0 <= b.minVal <= b.maxVal
    ensures var p := Padded(b, isPercentage); 0.0 <= p.minVal < p.maxVal
    ensures !isPercentage ==> Padded(b, isPercentage).minVal <= b.minVal && b.maxVal < Padded(b, isPercentage).maxVal
    ensures isPercentage ==> Padded(b, isPercentage).minVal == 0.0 && Padded(b, isPercentage).maxVal == 100.0
    ensures !isPercentage ==>
      var room := Padded(b, isPercentage).maxVal - b.maxVal;
      10.0 * room == (if b.minVal < b.maxVal then b.maxVal - b.minVal else if b.maxVal > 0.0 then b.maxVal else 10.0)
      && (Padded(b, isPercentage).minVal == b.minVal - room
          || (Padded(b, isPercentage).minVal == 0.0 && b.minVal < room))
  {
  }

  function TimeRange(b: Bounds): (r: int)
    requires b.minTime <= b.maxTime
    ensures r > 0
  {
    if b.maxTime == b.minTime then 1 else b.maxTime - b.minTime
  }

  function X(b: Bounds, graphWidth: real, time: int): real
    requires b.minTime <= b.maxTime
  {
    graphWidth * (time - b.minTime) as real / TimeRange(b) as real
  }

  function Y(b: Bounds, graphHeight: real, value: real): real
    requires b.minVal < b.maxVal
  {
    graphHeight * (1.0 - (Min(b.maxVal, Max(b.minVal, value)) - b.minVal) / (b.maxVal - b.minVal))
  }

  lemma Fraction(a: real, n: real, d: real)
    requires a > 0.0 && d > 0.0 && 0.0 <= n <= d
    ensures 0.0 <= n / d <= 1.0 && 0.0 <= a * (n / d) <= a && a * n / d == a * (n / d)
  {
    var q := n / d;
    assert q * d == n;
    assert 0.0 <= q <= 1.0;
    assert a * n / d == a * q;
  }

  lemma XInside(b: Bounds, w: real, time: int)
    requires w > 0.0 && b.minTime <= time <= b.maxTime
    ensures 0.0 <= X(b, w, time) <= w
  {
    Fraction(w, (time - b.minTime) as real, TimeRange(b) as real);
  }

  lemma XIncreases(b: Bounds, w: real, s: int, t: int)
    requires w > 0.0 && b.minTime <= b.maxTime && s < t
    ensures X(b, w, s) < X(b, w, t)
  {
    var d, m, n := TimeRange(b) as real, (s - b.minTime) as real, (t - b.minTime) as real;
    assert w * m < w * n by { Less(w, m, n); }
    Divided(w * m, w * n, d);
  }

  lemma Less(w: real, m: real, n: real)
    requires w > 0.0 && m < n
    ensures w * m < w * n
  {
    assert w * (n - m) > 0.0;
  }

  lemma Divided(m: real, n: real, d: real)
    requires d > 0.0 && m < n
    ensures m / d < n / d
  {
    var p, q := m / d, n / d;
    assert p * d == m && q * d == n;
  }

  lemma YInside(b: Bounds, h: real, value: real)
    requires h > 0.0 && b.minVal < b.maxVal
    ensures 0.0 <= Y(b, h, value) <= h
  {
    var c := Min(b.maxVal, Max(b.minVal, value));
    Fraction(h, c - b.minVal, b.maxVal - b.minVal);
  }

  lemma YDecreases(b: Bounds, h: real, u: real, v: real)
    requires h > 0.0 && b.minVal <= u < v <= b.maxVal
    ensures Y(b, h, v) < Y(b, h, u)
  {
    var d := b.maxVal - b.minVal;
    Divided(u - b.minVal, v - b.minVal, d);
    Less(h, 1.0 - (v - b.minVal) / d, 1.0 - (u - b.minVal) / d);
  }

  // ----- every drawn point is inside the plot -----

  lemma {:induction false} ShownCollected(series: seq<seq<Raw>>, i: nat, p: Pt)
    requires i < |series| && p in Shown(series[i])
    ensures p in Collected(series)
  {
    var n := |series| - 1;
    if i < n {
      ShownCollected(series[..n], i, p);
    }
  }

  lemma {:induction false} ShownNotNegative(data: seq<Raw>)
    ensures forall p :: p in Shown(data) ==> p.value >= 0.0
  {
    if data != [] {
      ShownNotNegative(data[..|data| - 1]);
    }
  }

  lemma {:induction false} CollectedNotNegative(series: seq<seq<Raw>>)
    ensures forall p :: p in Collected(series) ==> p.value >= 0.0
  {
    if series != [] {
      CollectedNotNegative(series[..|series| - 1]);
      ShownNotNegative(series[|series| - 1]);
    }
  }

  lemma DrawnCovered(series: seq<seq<Raw>>, i: nat, t: Transform, b: Bounds, p: Pt)
    requires Positive(t) && Tight(b, Mapped(t, Collected(series)))
    requires i < |series| && p in Drawn(t, series[i])
    ensures Covers(b, p)
  {
    DrawnIsScaled(t, series[i]);
    var k :| 0 <= k < |Drawn(t, series[i])| && Drawn(t, series[i])[k] == p;
    var q := Shown(series[i])[k];
    ShownCollected(series, i, q);
    var l :| 0 <= l < |Collected(series)| && Collected(series)[l] == q;
    assert Mapped(t, Collected(series))[l] == p;
  }

  lemma BoundsNotNegative(series: seq<seq<Raw>>, t: Transform, b: Bounds)
    requires Positive(t) && Tight(b, Mapped(t, Collected(series)))
    ensures 0.0 <= b.minVal <= b.maxVal && b.minTime <= b.maxTime
  {
    CollectedNotNegative(series);
    var ps := Mapped(t, Collected(series));
    var i :| 0 <= i < |ps| && ps[i].value == b.minVal;
    assert Collected(series)[i] in Collected(series);
    KeepsSign(t, Collected(series)[i].value);
    assert Covers(b, ps[i]);
  }

  /** Ranges that are never empty and reach every point that is drawn. */
  predicate Reaches(b: Bounds, series: seq<seq<Raw>>, t: Transform, isPercentage: bool)
    requires Defined(t)
  {
    b.minVal < b.maxVal && b.minTime <= b.maxTime &&
    forall i :: 0 <= i < |series| ==>
      forall p :: p in Drawn(t, series[i]) ==>
        b.minTime <= p.time <= b.maxTime && (!isPercentage ==> b.minVal <= p.value <= b.maxVal)
  }

  lemma PaddedReaches(series: seq<seq<Raw>>, t: Transform, b: Bounds, isPercentage: bool)
    requires Positive(t) && Tight(b, Mapped(t, Collected(series)))
    ensures Reaches(Padded(b, isPercentage), series, t, isPercentage)
  {
    BoundsNotNegative(series, t, b);
    PaddedRange(b, isPercentage);
    forall i | 0 <= i < |series| ensures forall p :: p in Drawn(t, series[i]) ==> Covers(b, p) {
      forall p | p in Drawn(t, series[i]) ensures Covers(b, p) { DrawnCovered(series, i, t, b, p); }
    }
  }

  /** `b` is the padded range of the transformed points. */
  ghost predicate ScaleOf(b: Bounds, series: seq<seq<Raw>>, t: Transform, isPercentage: bool)
    requires Defined(t)
  {
    exists c :: Tight(c, Mapped(t, Collected(series))) && b == Padded(c, isPercentage)
  }

  /** The scale of a chart; nothing when there is nothing to show. With a positive factor it reaches every
      point drawn. */
  method Scale(series: seq<seq<Raw>>, t: Transform, isPercentage: bool) returns (r: Option<Bounds>)
    requires Defined(t)
    ensures r.None? <==> Collected(series) == []
    ensures r.Some? ==> ScaleOf(r.value, series, t, isPercentage)
    ensures r.Some? && Positive(t) ==> Reaches(r.value, series, t, isPercentage)
  {
    var data := CollectData(series);
    if |data| == 0 { return None; }
    var all := new Pt[|data|](i requires 0 <= i < |data| => data[i]);
    assert all[..] == data;
    TransformAll(all, t);
    var b := FindBounds(all);
    if Positive(t) {
      PaddedReaches(series, t, b.value, isPercentage);
    }
    r := Some(Padded(b.value, isPercentage));
  }

  /** Without a percentage axis a scale always reaches what is drawn exactly when the factor is positive: a
      negative one can even turn the value range upside down. */
  lemma ReachesExactly(t: Transform)
    requires Defined(t)
    ensures (forall series, b :: ScaleOf(b, series, t, false) ==> Reaches(b, series, t, false)) <==> Positive(t)
  {
    if Positive(t) {
      forall series, b | ScaleOf(b, series, t, false) ensures Reaches(b, series, t, false) {
        var c :| Tight(c, Mapped(t, Collected(series))) && b == Padded(c, false);
        PaddedReaches(series, t, c, false);
      }
    } else {
      var v := Apply(t, 1.0);
      var c := Bounds(v, v, 0, 0);
      NegativeApply(t);
      OnePoint(t);
      assert ScaleOf(Padded(c, false), [[Raw(0, Some(1.0))]], t, false);
      assert !Reaches(Padded(c, false), [[Raw(0, Some(1.0))]], t, false);
    }
  }

  lemma OnePoint(t: Transform)
    requires Defined(t)
    ensures var v := Apply(t, 1.0); Tight(Bounds(v, v, 0, 0), Mapped(t, Collected([[Raw(0, Some(1.0))]])))
  {
    var data := [Raw(0, Some(1.0))];
    var series := [data];
    assert data[..0] == [] && series[..0] == [];
    assert Shown(data) == [Pt(0, 1.0)] && Collected(series) == [Pt(0, 1.0)];
    assert Mapped(t, Collected(series))[0] == Pt(0, Apply(t, 1.0));
  }

  /** With sizes as the handler clamps them, every point on such a scale lies in the plot area; later
      points lie further right, and without a percentage axis larger values lie higher. */
  lemma PointsInside(b: Bounds, w: int, h: int, p: Pt)
    requires b.minVal < b.maxVal && b.minTime <= p.time <= b.maxTime
    ensures 0.0 <= X(b, GraphWidth(ClampWidth(w)), p.time) <= GraphWidth(ClampWidth(w))
    ensures 0.0 <= Y(b, GraphHeight(ClampHeight(h)), p.value) <= GraphHeight(ClampHeight(h))
    ensures forall q: Pt :: p.time < q.time ==>
      X(b, GraphWidth(ClampWidth(w)), p.time) < X(b, GraphWidth(ClampWidth(w)), q.time)
    ensures forall q: Pt :: b.minVal <= p.value < q.value <= b.maxVal ==>
      Y(b, GraphHeight(ClampHeight(h)), q.value) < Y(b, GraphHeight(ClampHeight(h)), p.value)
  {
    PlotArea(w, h);
    var gw, gh := GraphWidth(ClampWidth(w)), GraphHeight(ClampHeight(h));
    XInside(b, gw, p.time);
    YInside(b, gh, p.value);
    forall q: Pt | p.time < q.time ensures X(b, gw, p.time) < X(b, gw, q.time) {
      XIncreases(b, gw, p.time, q.time);
    }
    forall q: Pt | b.minVal <= p.value < q.value <= b.maxVal ensures Y(b, gh, q.value) < Y(b, gh, p.value) {
      YDecreases(b, gh, p.value, q.value);
    }
  }

  /** The oldest point lies on the left edge and the newest on the right one, unless all are of one time; and
      equal times apart are equal ways apart. */
  lemma TimeAxis(b: Bounds, w: real, s: int, t: int)
    requires b.minTime <= b.maxTime
    ensures X(b, w, b.minTime) == 0.0
    ensures b.minTime < b.maxTime ==> X(b, w, b.maxTime) == w
    ensures b.minTime < b.maxTime ==>
      (X(b, w, t) - X(b, w, s)) * (b.maxTime - b.minTime) as real == w * (t - s) as real
  {
    var d := TimeRange(b) as real;
    Quotient(w * (s - b.minTime) as real, d);
    Quotient(w * (t - b.minTime) as real, d);
    Quotient(w * d, d);
    if b.minTime < b.maxTime {
      Distribute(w, (t - b.minTime) as real, (s - b.minTime) as real);
      Apart(X(b, w, t), X(b, w, s), d);
      SameQuotient(w, d, X(b, w, b.maxTime));
    }
  }

  /** The lower limit of the axis lies on the bottom edge and the upper one on the top edge, values beyond it are
      drawn on the edge, and equal values apart are equal ways apart. */
  lemma ValueAxis(b: Bounds, h: real, u: real, v: real)
    requires b.minVal < b.maxVal && b.minVal <= u <= b.maxVal && b.minVal <= v <= b.maxVal
    ensures Y(b, h, b.minVal) == h && Y(b, h, b.maxVal) == 0.0
    ensures forall z :: z <= b.minVal ==> Y(b, h, z) == h
    ensures forall z :: z >= b.maxVal ==> Y(b, h, z) == 0.0
    ensures (Y(b, h, u) - Y(b, h, v)) * (b.maxVal - b.minVal) == h * (v - u)
  {
    var d := b.maxVal - b.minVal;
    var p, q := (u - b.minVal) / d, (v - b.minVal) / d;
    Quotient(u - b.minVal, d);
    Quotient(v - b.minVal, d);
    Quotient(d, d);
    assert d / d == 1.0 && 0.0 / d == 0.0;
    assert Y(b, h, u) == h * (1.0 - p) && Y(b, h, v) == h * (1.0 - q);
    Scaled(h, p, q, d);
  }

  lemma Quotient(m: real, d: real)
    requires d != 0.0
    ensures (m / d) * d == m
  {
  }

  lemma Distribute(w: real, m: real, n: real)
    ensures w * m - w * n == w * (m - n)
  {
  }

  lemma Apart(x: real, y: real, d: real)
    ensures (x - y) * d == x * d - y * d
  {
  }

  lemma SameQuotient(w: real, d: real, x: real)
    requires d != 0.0 && x * d == w * d
    ensures x == w
  {
  }

  lemma Scaled(h: real, p: real, q: real, d: real)
    ensures (h * (1.0 - p) - h * (1.0 - q)) * d == h * (q * d - p * d)
  {
  }

  /** What is collected is every value that is there and not negative, zero included, and nothing else. */
  lemma {:induction false} ShownExactly(data: seq<Raw>, p: Pt)
    ensures p in Shown(data) <==> p.value >= 0.0 && Raw(p.time, Some(p.value)) in data
  {
    if data != [] {
      var n := |data| - 1;
      assert data == data[..n] + [data[n]];
      ShownExactly(data[..n], p);
    }
  }

  lemma {:induction false} CollectedExactly(series: seq<seq<Raw>>, p: Pt)
    ensures p in Collected(series) <==>
      p.value >= 0.0 && exists i :: 0 <= i < |series| && Raw(p.time, Some(p.value)) in series[i]
  {
    if series != [] {
      var n := |series| - 1;
      CollectedExactly(series[..n], p);
      ShownExactly(series[n], p);
    }
  }
}
