/** What the cache means: a map from keys to a stored value and the time it stops being served. */
module CacheSpec {
  import opened CStrings
  import opened CacheKey
  import opened MetricValues

  const DEFAULT_TTL := 5

  datatype Stored = Stored(value: MetricValue, expires: int)
  datatype State = State(entries: map<string, Stored>, ttl: int, initialized: bool)

  const START := State(map[], DEFAULT_TTL, false)

  function Init(s: State, ttl: int): State {
    s.(ttl := if ttl > 0 then ttl else DEFAULT_TTL, initialized := true)
  }

  /** The part of `rrd_cache_get` under the lock. */
  function Lookup(s: State, key: string, now: int): (r: Option<MetricValue>) {
    if key in s.entries && s.entries[key].expires > now && Clonable(s.entries[key].value)
    then Some(Cloned(s.entries[key].value))
    else None
  }

  /** The part of `rrd_cache_put` under the lock. */
  function Store(s: State, key: string, value: MetricValue, now: int): State {
    s.(entries := s.entries[key := Stored(value, now + s.ttl)])
  }

  function Get(s: State, path: Option<string>, period: int, now: int): (r: Option<MetricValue>) {
    if !s.initialized || path.None? then None else Lookup(s, BuildKey(path.value, period), now)
  }

  function Put(s: State, path: Option<string>, period: int, value: Option<MetricValue>, now: int): State {
    if !s.initialized || value.None? || path.None? then s
    else Store(s, BuildKey(path.value, period), value.value, now)
  }

  function Free(s: State): State {
    s.(entries := map[], initialized := false)
  }

  // ----- any sequence of calls -----

  /** A call together with the clock reading it sees. */
  datatype Call =
    | CallInit(ttl: int)
    | CallGet(path: Option<string>, period: int)
    | CallPut(path: Option<string>, period: int, value: Option<MetricValue>)
    | CallFree

  datatype Event = Event(call: Call, now: int)

  function Apply(s: State, e: Event): State {
    match e.call
    case CallInit(ttl) => Init(s, ttl)
    case CallGet(_, _) => s
    case CallPut(path, period, value) => Put(s, path, period, value, e.now)
    case CallFree => Free(s)
  }

  function Run(h: seq<Event>): State {
    if h == [] then START else Apply(Run(h[..|h| - 1]), h[|h| - 1])
  }

  predicate PutsAt(h: seq<Event>, i: int, key: string) {
    0 <= i < |h| && h[i].call.CallPut? && h[i].call.path.Some? && h[i].call.value.Some?
    && Run(h[..i]).initialized && BuildKey(h[i].call.path.value, h[i].call.period) == key
  }

  /** The call at `i` is the last to touch `key`: it puts it, and nothing later puts it or frees. */
  predicate LastPut(h: seq<Event>, i: int, key: string) {
    PutsAt(h, i, key) && forall j :: i < j < |h| ==> !PutsAt(h, j, key) && !h[j].call.CallFree?
  }

  /** After any sequence of calls, what `Get` serves is decided by the last put of the key since the
      last free: its value, until the time to live in force at that put has passed. */
  lemma {:induction false} EntryIsLastPut(h: seq<Event>, key: string) returns (i: int)
    ensures key in Run(h).entries <==> LastPut(h, i, key)
    ensures key !in Run(h).entries ==> forall k :: !LastPut(h, k, key)
    ensures key in Run(h).entries ==>
      Run(h).entries[key] == Stored(h[i].call.value.value, h[i].now + Run(h[..i]).ttl)
  {
    if h == [] {
      return -1;
    }
    var last := |h| - 1;
    i := EntryIsLastPut(h[..last], key);
    if PutsAt(h, last, key) {
      i := last;
    } else {
      LastPutStays(h, key);
      if h[last].call.CallFree? {
        i := -1;
      } else {
        assert LastPut(h, i, key) ==> h[..last][..i] == h[..i];
      }
    }
  }

  /** A call that neither puts the key nor frees leaves its last put where it is. */
  lemma LastPutStays(h: seq<Event>, key: string)
    requires h != [] && !PutsAt(h, |h| - 1, key)
    ensures forall k :: LastPut(h, k, key) <==> LastPut(h[..|h| - 1], k, key) && !h[|h| - 1].call.CallFree?
  {
    PutsInPrefix(h, key);
    forall k
      ensures LastPut(h, k, key) <==> LastPut(h[..|h| - 1], k, key) && !h[|h| - 1].call.CallFree?
    {
      if LastPut(h[..|h| - 1], k, key) && !h[|h| - 1].call.CallFree? {
        assert forall j :: k < j < |h| - 1 ==> PutsAt(h, j, key) == PutsAt(h[..|h| - 1], j, key);
      }
      if LastPut(h, k, key) {
        assert forall j :: k < j < |h| - 1 ==> PutsAt(h[..|h| - 1], j, key) == PutsAt(h, j, key);
        assert forall j :: k < j < |h| - 1 ==> h[..|h| - 1][j] == h[j];
      }
    }
  }

  lemma PutsInPrefix(h: seq<Event>, key: string)
    requires h != []
    ensures forall k :: 0 <= k < |h| - 1 ==> PutsAt(h, k, key) == PutsAt(h[..|h| - 1], k, key)
  {
    forall k | 0 <= k < |h| - 1
      ensures PutsAt(h, k, key) == PutsAt(h[..|h| - 1], k, key)
    {
      assert h[..|h| - 1][..k] == h[..k];
    }
  }

  /** `Get` after any sequence of calls: a hit is exactly a live last put of a copyable value. */
  lemma GetServesLastPut(h: seq<Event>, path: string, period: int, now: int)
    ensures Get(Run(h), Some(path), period, now).Some? <==>
      Run(h).initialized
      && exists i ::
           LastPut(h, i, BuildKey(path, period)) && now < h[i].now + Run(h[..i]).ttl && Clonable(h[i].call.value.value)
    ensures forall i :: LastPut(h, i, BuildKey(path, period)) && Get(Run(h), Some(path), period, now).Some? ==>
      Get(Run(h), Some(path), period, now) == Some(Cloned(h[i].call.value.value))
  {
    var key := BuildKey(path, period);
    var i := EntryIsLastPut(h, key);
    assert forall k :: LastPut(h, k, key) ==> k == i;
  }

  /** A put leaves every other request's answer alone, as long as the keys fit. */
  lemma PutFrame(s: State, p1: string, n1: int, v: MetricValue, t: int, p2: string, n2: int, now: int)
    requires KeyFits(p1, n1) && KeyFits(p2, n2) && (p1 != p2 || n1 != n2)
    ensures Get(Put(s, Some(p1), n1, Some(v), t), Some(p2), n2, now) == Get(s, Some(p2), n2, now)
  {
    KeyInjective(p1, n1, p2, n2);
  }

  // ----- the time to live and the flag -----

  /** The call at `i` is the last one that starts the cache. */
  predicate LastInit(h: seq<Event>, i: int) {
    0 <= i < |h| && h[i].call.CallInit? && forall j :: i < j < |h| ==> !h[j].call.CallInit?
  }

  /** The time to live in force is the one of the last start, or 5 seconds if that asked for none or there was
      none; and the cache is on exactly when it was not freed since. */
  lemma {:induction false} StartedLast(h: seq<Event>) returns (i: int)
    ensures i == -1 || LastInit(h, i)
    ensures i == -1 <==> forall j :: 0 <= j < |h| ==> !h[j].call.CallInit?
    ensures Run(h).ttl == if i >= 0 && h[i].call.ttl > 0 then h[i].call.ttl else 5
    ensures Run(h).initialized <==> i >= 0 && forall j :: i < j < |h| ==> !h[j].call.CallFree?
  {
    i := -1;
    if h != [] {
      var n := |h| - 1;
      i := StartedLast(h[..n]);
      assert forall j :: 0 <= j < n ==> h[..n][j] == h[j];
      if h[n].call.CallInit? {
        i := n;
      }
    }
  }
}
