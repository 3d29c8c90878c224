/** The cached fetch of one worker, run alone, against the heap table (src/metric_source.c, SRC_RRD). */
module MetricSource {
  import opened CStrings
  import opened CacheKey
  import opened MetricValues
  import CacheSpec
  import Cache

  /** The clock readings of the first get, the put and the second get. */
  datatype Times = Times(get: int, put: int, again: int)

  function FetchSpec(s: CacheSpec.State, path: string, period: int, useCache: bool,
                     fetched: Option<MetricValue>, t: Times): (Option<MetricValue>, CacheSpec.State)
  {
    var first := if useCache then CacheSpec.Get(s, Some(path), period, t.get) else None;
    if first.Some? then (first, s)
    else if fetched.None? || !useCache then (fetched, s)
    else
      var s' := CacheSpec.Put(s, Some(path), period, fetched, t.put);
      (CacheSpec.Get(s', Some(path), period, t.again), s')
  }

  /** An entry that the first get can answer with. */
  ghost predicate Live(s: CacheSpec.State, key: string, now: int) {
    s.initialized && key in s.entries && now < s.entries[key].expires && Clonable(s.entries[key].value)
  }

  /** `fetched` is what reading the archive gave; with the cache on, the table takes ownership of it
      and the answer never shares memory with the table. Without the cache the answer is `fetched` itself, and
      the table stays as it is. A hit is a copy of the live entry, and leaves the table alone. A miss stores
      what was read and answers with a copy of it, unless the cache is off or the time to live passes between
      the put and the second get. */
  method Fetch(table: Cache.Table, path: string, period: int, useCache: bool, fetched: MetricData?, t: Times)
    returns (data: MetricData?)
    requires table.Valid()
    requires fetched != null ==> fetched.Valid() && fetched.Mem !! table.Repr && table !in fetched.Mem
    modifies table`entries, table`Repr, table.Repr
    ensures table.Valid()
    ensures (if data == null then None else if data.Valid() then Some(data.Value()) else None, table.View())
         == FetchSpec(old(table.View()), path, period, useCache,
                      if fetched == null then None else Some(old(fetched.Value())), t)
    ensures data != null ==> data.Valid() && (fresh(data.Mem) || (!useCache && data == fetched))
    ensures !useCache ==> data == fetched && table.View() == old(table.View())
    ensures !useCache && data != null ==> data.Value() == old(fetched.Value())
    ensures (useCache && old(Live(table.View(), BuildKey(path, period), t.get))) ==>
      data != null && data.Value() == Cloned(old(table.entries)[BuildKey(path, period)].value)
      && table.View() == old(table.View())
    ensures (useCache && !old(Live(table.View(), BuildKey(path, period), t.get)) && fetched == null) ==>
      data == null && table.View() == old(table.View())
    ensures (useCache && !old(Live(table.View(), BuildKey(path, period), t.get)) && fetched != null) ==>
      table.View() == if !old(table.initialized) then old(table.View())
                      else old(table.View()).(entries := old(table.entries)[BuildKey(path, period) :=
                             CacheSpec.Stored(old(fetched.Value()), t.put + old(table.ttl))])
    ensures (useCache && !old(Live(table.View(), BuildKey(path, period), t.get)) && fetched != null) ==>
      (data != null <==> old(table.initialized) && t.again < t.put + old(table.ttl) && Clonable(old(fetched.Value())))
    ensures (useCache && !old(Live(table.View(), BuildKey(path, period), t.get)) && fetched != null && data != null) ==>
      data.Value() == Cloned(old(fetched.Value()))
  {
    data := null;
    if useCache {
      data := table.Get(Some(path), period, t.get);
    }
    if data == null && fetched != null {
      if useCache {
        table.Put(Some(path), period, fetched, t.put);
        data := table.Get(Some(path), period, t.again);
      } else {
        data := fetched;
      }
    }
  }

  /** Repeating the request before the time to live has passed answers the same again, whatever the
      archive holds by then. */
  lemma RepeatedFetch(s: CacheSpec.State, path: string, period: int,
                      first: Option<MetricValue>, second: Option<MetricValue>, t1: Times, t2: Times)
    requires t1.get <= t1.again <= t2.get
    requires FetchSpec(s, path, period, true, first, t1).0.Some?
    requires var key, s1 := BuildKey(path, period), FetchSpec(s, path, period, true, first, t1).1;
             key in s1.entries ==> t2.get < s1.entries[key].expires
    ensures var r1 := FetchSpec(s, path, period, true, first, t1);
            FetchSpec(r1.1, path, period, true, second, t2) == r1
  {
  }
}
