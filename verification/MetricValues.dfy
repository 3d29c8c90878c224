/** Fetched metric data: its value, and the heap object that `clone_metric_data` copies
    (include/rrd/reader.h, src/rrd/cache.c). */
module MetricValues {
  import opened CStrings

  datatype Point = Point(timestamp: int, value: real)
  datatype Series = Series(name: Option<string>, points: seq<Point>)

  /** `config` stands for the identity of the metric configuration, which clones share. */
  datatype MetricValue = MetricValue(series: seq<Series>, param1: Option<string>, config: int)

  /** A series without a name makes the copy fail. */
  predicate Clonable(v: MetricValue) {
    forall i :: 0 <= i < |v.series| ==> v.series[i].name.Some?
  }

  /** A missing parameter is copied as the empty string; nothing else differs. */
  function Cloned(v: MetricValue): MetricValue {
    if v.param1.None? then v.(param1 := Some("")) else v
  }

  /** The tables of names, buffers and counts are filled before the object is published and never
      change afterwards; the point buffers are heap arrays that may be longer than their count. */
  class MetricData {
    const names: seq<Option<string>>
    const buffers: seq<array<Point>>
    const counts: seq<nat>
    const param1: Option<string>
    var config: int
    ghost const Mem: set<object>   // this object and its buffers

    constructor (names: seq<Option<string>>, buffers: seq<array<Point>>, counts: seq<nat>,
                 param1: Option<string>, config: int)
      ensures this.names == names && this.buffers == buffers && this.counts == counts
      ensures this.param1 == param1 && this.config == config
      ensures Mem == {this} + set i | 0 <= i < |buffers| :: buffers[i]
    {
      this.names, this.buffers, this.counts := names, buffers, counts;
      this.param1, this.config := param1, config;
      this.Mem := {this} + set i | 0 <= i < |buffers| :: buffers[i];
    }

    ghost predicate Valid() {
      |names| == |buffers| == |counts|
      && this in Mem
      && forall i :: 0 <= i < |counts| ==> counts[i] <= buffers[i].Length && buffers[i] in Mem
    }

    ghost function SeriesUpTo(n: nat): seq<Series>
      requires Valid() && n <= |counts|
      reads Mem
    {
      if n == 0 then [] else SeriesUpTo(n - 1) + [Series(names[n - 1], buffers[n - 1][..counts[n - 1]])]
    }

    ghost function Value(): MetricValue
      requires Valid()
      reads Mem
    {
      MetricValue(SeriesUpTo(|counts|), param1, config)
    }

    /** `clone_metric_data`: the copy has the same value in memory that is all new, and the copying
        loop gives up at the first series without a name. */
    method Clone() returns (copy: MetricData?)
      requires Valid()
      ensures copy == null <==> !Clonable(Value())
      ensures copy != null ==> copy.Valid() && fresh(copy.Mem) && copy.Value() == Cloned(Value())
      ensures copy != null ==> copy.Value().series == Value().series && copy.config == config
      ensures copy != null ==> copy.param1 == Some(if param1.Some? then param1.value else "")
    {
      var names', buffers', counts' := [], [], [];
      var i := 0;
      while i < |counts|
        invariant 0 <= i <= |counts|
        invariant names' == names[..i] && counts' == counts[..i] && |buffers'| == i
        invariant forall k :: 0 <= k < i ==> names[k].Some?
        invariant forall k :: 0 <= k < i ==> fresh(buffers'[k]) && buffers'[k][..] == buffers[k][..counts[k]]
      {
        if names[i].None? {
          SeriesIndex(|counts|, i);
          return null;
        }
        var p := CopyPoints(buffers[i], counts[i]);
        names', buffers', counts' := names' + [names[i]], buffers' + [p], counts' + [counts[i]];
        i := i + 1;
      }
      copy := new MetricData(names', buffers', counts', if param1.None? then Some("") else param1, config);
      assert forall k :: 0 <= k < i ==> |buffers'[k][..]| == counts'[k];
      SameSeries(copy, i);
      AllNamed();
    }

    lemma {:induction false} SeriesIndex(n: nat, k: nat)
      requires Valid() && k < n <= |counts|
      ensures |SeriesUpTo(n)| == n && SeriesUpTo(n)[k] == Series(names[k], buffers[k][..counts[k]])
    {
      if n > 1 {
        SeriesIndex(n - 1, if k < n - 1 then k else 0);
      }
    }

    lemma {:induction false} SameSeries(other: MetricData, n: nat)
      requires Valid() && other.Valid() && n <= |counts| && other.names == names && other.counts == counts
      requires forall k :: 0 <= k < n ==> other.buffers[k][..counts[k]] == buffers[k][..counts[k]]
      ensures other.SeriesUpTo(n) == SeriesUpTo(n)
    {
      if n > 0 {
        SameSeries(other, n - 1);
      }
    }

    lemma AllNamed()
      requires Valid() && forall k :: 0 <= k < |names| ==> names[k].Some?
      ensures Clonable(Value())
    {
      forall k | 0 <= k < |Value().series|
        ensures Value().series[k].name.Some?
      {
        if |counts| > 0 {
          SeriesIndex(|counts|, 0);
          SeriesIndex(|counts|, k);
        }
      }
    }
  }

  method CopyPoints(src: array<Point>, n: nat) returns (dst: array<Point>)
    requires n <= src.Length
    ensures fresh(dst) && dst.Length == n && dst[..] == src[..n]
  {
    dst := new Point[n](_ => Point(0, 0.0));
    var k := 0;
    while k < n
      invariant 0 <= k <= n
      invariant dst[..k] == src[..k]
    {
      dst[k] := src[k];
      k := k + 1;
    }
  }
}
