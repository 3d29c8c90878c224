/** Workers sharing the cache (src/metric_source.c, src/rrd/cache.c): every interleaving of their
    steps, with the clock moving on in between. A run is any sequence of labels; a label that is not
    enabled does nothing. Each test of the initialized flag and each locked region is one step. */
module FetchProtocol {
  import opened CStrings
  import opened CacheKey
  import opened MetricValues
  import CacheSpec
  import Extraction

  /** What a worker is asked for. `sum` is whether the metric's transform is "sum", `param` the parameter
      taken from the endpoint, `config` the identity of the metric's configuration. */
  datatype Request =
    Request(path: string, period: int, sum: bool, param: Option<string>, config: int, useCache: bool)

  datatype Phase =
    | FirstTest                                   // about to test the flag in the first get
    | FirstLookup                                 // about to lock in the first get
    | Fetching
    | PutTest(value: MetricValue, at: int)        // fetched at time `at`
    | Storing(value: MetricValue, at: int)        // about to lock in put
    | SecondTest
    | SecondLookup
    | Done(result: Option<MetricValue>)

  datatype Worker = Worker(req: Request, phase: Phase)

  /** The matrix that the archive gives, at each time, for a path and a period; none if it cannot be read. */
  type Disk = (string, int, int) -> Option<Extraction.Matrix>

  datatype Sys = Sys(cache: CacheSpec.State, now: int, workers: map<nat, Worker>)

  datatype Label =
    | Tick(d: nat)
    | Init(ttl: int)
    | Free
    | Spawn(w: nat, req: Request)
    | Work(w: nat)

  function Key(r: Request): string { BuildKey(r.path, r.period) }

  function ParamOf(r: Request): string { if r.param.Some? then r.param.value else "" }

  /** Fetching turns the matrix into series by the requester's transform, and puts its parameter and
      configuration beside them. */
  function Read(disk: Disk, r: Request, t: int): Option<MetricValue> {
    match disk(r.path, r.period, t)
    case None => None
    case Some(f) =>
      match Extraction.Reading(f, r.sum)
      case None => None
      case Some(series) => Some(MetricValue(series, Some(ParamOf(r)), r.config))
  }

  /** All series of a fetch have names, so what is fetched can be copied. */
  lemma ReadClonable(disk: Disk, r: Request, t: int)
    ensures Read(disk, r, t).Some? ==> Clonable(Read(disk, r, t).value)
  {
  }

  function AfterFirst(r: Option<MetricValue>): Phase { if r.Some? then Done(r) else Fetching }

  /** One step of a worker: its next phase and the cache it leaves. */
  function Advance(disk: Disk, s: Sys, wk: Worker): (Phase, CacheSpec.State) {
    var key := Key(wk.req);
    match wk.phase
    case FirstTest =>
      ((if !wk.req.useCache then Fetching else if s.cache.initialized then FirstLookup else AfterFirst(None)), s.cache)
    case FirstLookup => (AfterFirst(CacheSpec.Lookup(s.cache, key, s.now)), s.cache)
    case Fetching =>
      (match Read(disk, wk.req, s.now)
       case None => Done(None)
       case Some(v) => if wk.req.useCache then PutTest(v, s.now) else Done(Some(v)), s.cache)
    case PutTest(v, at) => ((if s.cache.initialized then Storing(v, at) else SecondTest), s.cache)
    case Storing(v, at) => (SecondTest, CacheSpec.Store(s.cache, key, v, s.now))
    case SecondTest => ((if s.cache.initialized then SecondLookup else Done(None)), s.cache)
    case SecondLookup => (Done(CacheSpec.Lookup(s.cache, key, s.now)), s.cache)
    case Done(r) => (wk.phase, s.cache)
  }

  function Next(disk: Disk, s: Sys, l: Label): Sys {
    match l
    case Tick(d) => s.(now := s.now + d)
    case Init(ttl) => s.(cache := CacheSpec.Init(s.cache, ttl))
    case Free => s.(cache := CacheSpec.Free(s.cache))
    case Spawn(w, req) =>
      if w in s.workers && !s.workers[w].phase.Done? then s
      else s.(workers := s.workers[w := Worker(req, FirstTest)])
    case Work(w) =>
      if w !in s.workers then s
      else
        var (phase, cache) := Advance(disk, s, s.workers[w]);
        s.(workers := s.workers[w := s.workers[w].(phase := phase)], cache := cache)
  }

  function Exec(disk: Disk, start: int, run: seq<Label>): Sys {
    if run == [] then Sys(CacheSpec.START, start, map[])
    else Next(disk, Exec(disk, start, run[..|run| - 1]), run[|run| - 1])
  }

  // ----- where stored values come from -----

  /** Step `j` of the run is a worker storing under `key`. */
  predicate StoresAt(disk: Disk, start: int, run: seq<Label>, j: int, key: string) {
    0 <= j < |run| && run[j].Work?
    && var s := Exec(disk, start, run[..j]);
       run[j].w in s.workers && s.workers[run[j].w].phase.Storing? && Key(s.workers[run[j].w].req) == key
  }

  function StorerAt(disk: Disk, start: int, run: seq<Label>, j: int, key: string): Worker
    requires StoresAt(disk, start, run, j, key)
  {
    Exec(disk, start, run[..j]).workers[run[j].w]
  }

  /** A worker only ever runs requests it was given. */
  predicate Asked(run: seq<Label>, r: Request) {
    exists i :: 0 <= i < |run| && run[i].Spawn? && run[i].req == r
  }

  /** Fetched data is what the archive held, for the worker's own request, at some time not later than now. */
  predicate PhaseSound(disk: Disk, wk: Worker, now: int) {
    (wk.phase.PutTest? || wk.phase.Storing?) ==>
      wk.req.useCache && wk.phase.at <= now && Read(disk, wk.req, wk.phase.at) == Some(wk.phase.value)
  }

  lemma StepSound(disk: Disk, s: Sys, l: Label, w: nat)
    requires w in Next(disk, s, l).workers
    requires w in s.workers ==> PhaseSound(disk, s.workers[w], s.now)
    ensures PhaseSound(disk, Next(disk, s, l).workers[w], Next(disk, s, l).now)
    ensures (w in s.workers && Next(disk, s, l).workers[w].req == s.workers[w].req)
         || (l.Spawn? && l.req == Next(disk, s, l).workers[w].req)
  {
  }

  lemma {:induction false} WorkersSound(disk: Disk, start: int, run: seq<Label>, w: nat)
    requires w in Exec(disk, start, run).workers
    ensures PhaseSound(disk, Exec(disk, start, run).workers[w], Exec(disk, start, run).now)
    ensures Asked(run, Exec(disk, start, run).workers[w].req)
  {
    var pre, last := run[..|run| - 1], run[|run| - 1];
    var s := Exec(disk, start, pre);
    if w in s.workers {
      WorkersSound(disk, start, pre, w);
      var i :| 0 <= i < |pre| && pre[i].Spawn? && pre[i].req == s.workers[w].req;
      assert run[i] == pre[i];
    }
    StepSound(disk, s, last, w);
  }

  predicate StoresNext(s: Sys, l: Label, key: string) {
    l.Work? && l.w in s.workers && s.workers[l.w].phase.Storing? && Key(s.workers[l.w].req) == key
  }

  /** One step leaves an entry as it is, unless it stores it. */
  lemma EntryNext(disk: Disk, s: Sys, l: Label, key: string)
    requires key in Next(disk, s, l).cache.entries
    ensures if StoresNext(s, l, key)
            then Next(disk, s, l).cache.entries[key]
              == CacheSpec.Stored(s.workers[l.w].phase.value, s.now + s.cache.ttl)
            else key in s.cache.entries && Next(disk, s, l).cache.entries[key] == s.cache.entries[key]
    ensures s.now <= Next(disk, s, l).now
  {
  }

  /** Every entry was stored by a worker's step, and expires a time to live after it. */
  lemma {:induction false} EntryStored(disk: Disk, start: int, run: seq<Label>, key: string) returns (j: int)
    requires key in Exec(disk, start, run).cache.entries
    ensures StoresAt(disk, start, run, j, key)
    ensures Exec(disk, start, run).cache.entries[key]
      == CacheSpec.Stored(StorerAt(disk, start, run, j, key).phase.value,
                          Exec(disk, start, run[..j]).now + Exec(disk, start, run[..j]).cache.ttl)
    ensures Exec(disk, start, run[..j]).now <= Exec(disk, start, run).now
  {
    var n := |run| - 1;
    var pre := run[..n];
    EntryNext(disk, Exec(disk, start, pre), run[n], key);
    if StoresNext(Exec(disk, start, pre), run[n], key) {
      j := n;
    } else {
      j := EntryStored(disk, start, pre, key);
      assert pre[..j] == run[..j];
    }
  }

  /** A worker about to answer with `v` from the cache. */
  predicate Hits(disk: Disk, start: int, run: seq<Label>, w: nat, v: MetricValue) {
    var s := Exec(disk, start, run);
    w in s.workers && (s.workers[w].phase.FirstLookup? || s.workers[w].phase.SecondLookup?)
    && Exec(disk, start, run + [Work(w)]).workers[w].phase == Done(Some(v))
  }

  lemma ExecMore(disk: Disk, start: int, run: seq<Label>, l: Label)
    ensures Exec(disk, start, run + [l]) == Next(disk, Exec(disk, start, run), l)
  {
    assert (run + [l])[..|run + [l]| - 1] == run;
  }

  /** Safety in every interleaving: an answer from the cache is a copy of what some worker, asked for
      the same key, read from the archive and stored at a time p with p <= now < p + ttl. */
  lemma HitIsFreshCopy(disk: Disk, start: int, run: seq<Label>, w: nat, v: MetricValue)
    returns (j: int, storer: Worker)
    requires Hits(disk, start, run, w, v)
    ensures StoresAt(disk, start, run, j, Key(Exec(disk, start, run).workers[w].req))
    ensures storer == StorerAt(disk, start, run, j, Key(Exec(disk, start, run).workers[w].req))
    ensures Asked(run, storer.req) && Asked(run, Exec(disk, start, run).workers[w].req)
    ensures v == Cloned(storer.phase.value) && Read(disk, storer.req, storer.phase.at) == Some(storer.phase.value)
    ensures var p := Exec(disk, start, run[..j]).now;
            storer.phase.at <= p <= Exec(disk, start, run).now < p + Exec(disk, start, run[..j]).cache.ttl
  {
    ExecMore(disk, start, run, Work(w));
    var key := Key(Exec(disk, start, run).workers[w].req);
    j := EntryStored(disk, start, run, key);
    storer := StorerAt(disk, start, run, j, key);
    WorkersSound(disk, start, run, w);
    WorkersSound(disk, start, run[..j], run[j].w);
    var i :| 0 <= i < j && run[..j][i].Spawn? && run[..j][i].req == storer.req;
    assert run[i] == run[..j][i];
  }

  // ----- agreement with fetching without the cache -----

  /** What the request itself could read at time `t`. The chart handler puts the configuration of its own
      request back into what it gets (`repaired`); other callers take it as it is. */
  predicate OwnReading(disk: Disk, r: Request, t: int, v: MetricValue, repaired: bool) {
    Read(disk, r, t).Some? && (if repaired then v.(config := r.config) else v) == Read(disk, r, t).value
  }

  predicate AskedFrom(run: seq<Label>, reqs: set<Request>) {
    forall i :: 0 <= i < |run| && run[i].Spawn? ==> run[i].req in reqs
  }

  /** The answer `v` of worker `w` is its own reading at time `t`, put into the cache at step `j`, and the
      time to live has not passed since. */
  predicate OwnAnswer(disk: Disk, start: int, run: seq<Label>, w: nat, v: MetricValue, repaired: bool, j: nat, t: int) {
    var s := Exec(disk, start, run);
    w in s.workers && StoresAt(disk, start, run, j, Key(s.workers[w].req))
    && var s0 := Exec(disk, start, run[..j]);
       t <= s0.now <= s.now < s0.now + s0.cache.ttl && OwnReading(disk, s.workers[w].req, t, v, repaired)
  }

  /** Every answer from the cache, in every run, is one the request could have read for itself. */
  ghost predicate AlwaysOwn(disk: Disk, start: int, reqs: set<Request>, repaired: bool) {
    forall run, w, v :: AskedFrom(run, reqs) && Hits(disk, start, run, w, v) ==>
      exists j, t :: OwnAnswer(disk, start, run, w, v, repaired, j, t)
  }

  /** The two requests read the same, whatever the archive holds. */
  predicate Alike(r1: Request, r2: Request, repaired: bool) {
    r1.path == r2.path && r1.period == r2.period && r1.sum == r2.sum && ParamOf(r1) == ParamOf(r2)
    && (repaired || r1.config == r2.config)
  }

  predicate KeysAgree(reqs: set<Request>, repaired: bool) {
    forall r1, r2 :: r1 in reqs && r2 in reqs && r1.useCache && r2.useCache && Key(r1) == Key(r2) ==>
      Alike(r1, r2, repaired)
  }

  lemma {:induction false} CacheUsers(disk: Disk, start: int, run: seq<Label>, w: nat)
    requires w in Exec(disk, start, run).workers
    ensures var wk := Exec(disk, start, run).workers[w];
            !(wk.phase.FirstTest? || wk.phase.Fetching? || wk.phase.Done?) ==> wk.req.useCache
  {
    var pre := run[..|run| - 1];
    if w in Exec(disk, start, pre).workers {
      CacheUsers(disk, start, pre, w);
    }
  }

  lemma AskedIn(run: seq<Label>, reqs: set<Request>, r: Request)
    requires AskedFrom(run, reqs) && Asked(run, r)
    ensures r in reqs
  {
  }

  lemma AlikeReadsOwn(disk: Disk, own: Request, other: Request, t: int, v: MetricValue, repaired: bool)
    requires Alike(own, other, repaired) && Read(disk, other, t) == Some(v)
    ensures OwnReading(disk, own, t, Cloned(v), repaired)
  {
  }

  /** With agreeing requests, a cached answer is one that fetching for the same request without the cache
      gave, stored at a time from which the time to live has not passed. */
  lemma CachedIsUncachedEarlier(disk: Disk, start: int, reqs: set<Request>, repaired: bool)
    requires KeysAgree(reqs, repaired)
    ensures AlwaysOwn(disk, start, reqs, repaired)
  {
    forall run: seq<Label>, w, v | AskedFrom(run, reqs) && Hits(disk, start, run, w, v)
      ensures exists j, t :: OwnAnswer(disk, start, run, w, v, repaired, j, t)
    {
      var j := HitIsOwn(disk, start, run, reqs, w, v, repaired);
      var storer := StorerAt(disk, start, run, j, KeyOf(disk, start, run, w));
      assert OwnAnswer(disk, start, run, w, v, repaired, j, storer.phase.at);
    }
  }

  function KeyOf(disk: Disk, start: int, run: seq<Label>, w: nat): string
    requires w in Exec(disk, start, run).workers
  {
    Key(Exec(disk, start, run).workers[w].req)
  }

  lemma HitIsOwn(disk: Disk, start: int, run: seq<Label>, reqs: set<Request>, w: nat, v: MetricValue, repaired: bool)
    returns (j: int)
    requires KeysAgree(reqs, repaired) && AskedFrom(run, reqs) && Hits(disk, start, run, w, v)
    ensures StoresAt(disk, start, run, j, KeyOf(disk, start, run, w))
    ensures var storer := StorerAt(disk, start, run, j, KeyOf(disk, start, run, w));
            OwnAnswer(disk, start, run, w, v, repaired, j, storer.phase.at)
  {
    var storer;
    j, storer := HitIsFreshCopy(disk, start, run, w, v);
    var own := Exec(disk, start, run).workers[w].req;
    CacheUsers(disk, start, run, w);
    WorkersSound(disk, start, run[..j], run[j].w);
    AskedIn(run, reqs, own);
    AskedIn(run, reqs, storer.req);
    AlikeReadsOwn(disk, own, storer.req, storer.phase.at, storer.phase.value, repaired);
  }

  // ----- when requests do not agree -----

  /** One row of two data sources. */
  function OneRow(t: int, x: real): Extraction.Matrix {
    Extraction.Fetched(t, t + 1, 1, ["in", "out"], [Some(x), Some(x)])
  }

  /** The plain transform gives a series for each of the two, the summed one their total. */
  function OneRowSeries(t: int, x: real, sum: bool): seq<Series> {
    if sum then [Series(Some("total"), [Point(t, x + x)])]
    else [Series(Some("in"), [Point(t, x)]), Series(Some("out"), [Point(t, x)])]
  }

  lemma OneRowReads(t: int, x: real, sum: bool)
    requires x > 0.0
    ensures Extraction.Reading(OneRow(t, x), sum) == Some(OneRowSeries(t, x, sum))
  {
    var f := OneRow(t, x);
    assert Extraction.Rows(f) == 1;
    assert Extraction.Column(f, None) == [Point(t, x + x)];
    assert Extraction.Column(f, Some(0)) == [Point(t, x)] && Extraction.Column(f, Some(1)) == [Point(t, x)];
    var series := Extraction.AllSeries(f, sum);
    assert series == OneRowSeries(t, x, sum);
    assert series[0].points != [];
  }

  /** An archive that can always be read, with ones for the path and period of `r` and twos for all others. */
  function Telling(r: Request): Disk {
    (path: string, period: int, t: int) => Some(OneRow(t, if path == r.path && period == r.period then 1.0 else 2.0))
  }

  lemma TellingReads(r1: Request, r2: Request, t: int)
    ensures Read(Telling(r1), r2, t).Some?
    ensures Read(Telling(r1), r2, t).value.param1 == Some(ParamOf(r2))
    ensures Read(Telling(r1), r2, t).value.config == r2.config
    ensures Read(Telling(r1), r2, t).value.series
         == OneRowSeries(t, if r1.path == r2.path && r1.period == r2.period then 1.0 else 2.0, r2.sum)
  {
    OneRowReads(t, if r1.path == r2.path && r1.period == r2.period then 1.0 else 2.0, r2.sum);
  }

  /** What the archive tells one path, period and transform differs at all times from what it tells others. */
  lemma TellingTells(r1: Request, r2: Request, t1: int, t2: int)
    requires r1.path != r2.path || r1.period != r2.period || r1.sum != r2.sum
    ensures Read(Telling(r1), r1, t1).Some? && Read(Telling(r1), r2, t2).Some?
    ensures Read(Telling(r1), r1, t1).value.series != Read(Telling(r1), r2, t2).value.series
  {
    TellingReads(r1, r1, t1);
    TellingReads(r1, r2, t2);
  }

  /** Two requests with one key that are not alike: there are an archive and a run in which the second
      request is answered with something it could never have read. */
  lemma UnlikeAnswered(start: int, r1: Request, r2: Request, repaired: bool) returns (run: seq<Label>, v: MetricValue)
    requires r1.useCache && r2.useCache && Key(r1) == Key(r2) && !Alike(r1, r2, repaired)
    ensures Spawns(run, r1, r2)
    ensures Hits(Telling(r1), start, run, 1, v) && Exec(Telling(r1), start, run).workers[1].req == r2
    ensures forall t :: !OwnReading(Telling(r1), r2, t, v, repaired)
  {
    TellingReads(r1, r1, start);
    v := Read(Telling(r1), r1, start).value;
    run := SharedEntry(Telling(r1), start, r1, r2, v);
    forall t ensures !OwnReading(Telling(r1), r2, t, v, repaired) {
      TellingReads(r1, r2, t);
      if r1.path != r2.path || r1.period != r2.period || r1.sum != r2.sum {
        TellingTells(r1, r2, start, t);
      }
    }
  }

  /** Caching changes no answer, on any archive, exactly when requests sharing a key are alike: in path,
      period, transform and parameter, and in the configuration too where no handler puts it back. */
  lemma AgreementExactly(start: int, reqs: set<Request>, repaired: bool)
    ensures (forall disk :: AlwaysOwn(disk, start, reqs, repaired)) <==> KeysAgree(reqs, repaired)
  {
    if KeysAgree(reqs, repaired) {
      forall disk ensures AlwaysOwn(disk, start, reqs, repaired) {
        CachedIsUncachedEarlier(disk, start, reqs, repaired);
      }
    } else {
      var r1, r2 :| r1 in reqs && r2 in reqs && r1.useCache && r2.useCache && Key(r1) == Key(r2)
        && !Alike(r1, r2, repaired);
      var run, v := UnlikeAnswered(start, r1, r2, repaired);
      NotOwn(Telling(r1), start, reqs, repaired, run, v);
    }
  }

  lemma NotOwn(disk: Disk, start: int, reqs: set<Request>, repaired: bool, run: seq<Label>, v: MetricValue)
    requires AskedFrom(run, reqs) && Hits(disk, start, run, 1, v)
    requires forall t :: !OwnReading(disk, Exec(disk, start, run).workers[1].req, t, v, repaired)
    ensures !AlwaysOwn(disk, start, reqs, repaired)
  {
    assert forall j, t :: !OwnAnswer(disk, start, run, 1, v, repaired, j, t);
  }

  /** For keys that fit, sharing a key is having the same path and period, so that only the transform, the
      parameter and the configuration are left to agree on. */
  lemma FittingKeysAgree(reqs: set<Request>, repaired: bool)
    requires forall r :: r in reqs ==> KeyFits(r.path, r.period)
    ensures KeysAgree(reqs, repaired) <==>
      forall r1, r2 ::
        r1 in reqs && r2 in reqs && r1.useCache && r2.useCache && r1.path == r2.path && r1.period == r2.period ==>
        r1.sum == r2.sum && ParamOf(r1) == ParamOf(r2) && (repaired || r1.config == r2.config)
  {
    forall r1, r2 | r1 in reqs && r2 in reqs
      ensures Key(r1) == Key(r2) <==> r1.path == r2.path && r1.period == r2.period
    {
      KeyInjective(r1.path, r1.period, r2.path, r2.period);
    }
  }

  predicate Spawns(run: seq<Label>, r1: Request, r2: Request) {
    forall i :: 0 <= i < |run| && run[i].Spawn? ==> run[i].req == r1 || run[i].req == r2
  }

  /** A run after which the first worker has missed and fetched for `r1`. */
  lemma FirstFetches(disk: Disk, start: int, r1: Request, v: MetricValue) returns (run: seq<Label>, s: Sys)
    requires r1.useCache && Read(disk, r1, start) == Some(v)
    ensures Spawns(run, r1, r1) && s == Exec(disk, start, run)
    ensures s == Sys(CacheSpec.State(map[], 60, true), start, map[0 := Worker(r1, PutTest(v, start))])
  {
    s := Exec(disk, start, []);
    run := [];
    var cache := CacheSpec.State(map[], 60, true);
    run, s := Step(disk, start, run, Init(60));
    run, s := Step(disk, start, run, Spawn(0, r1));
    assert s == Sys(cache, start, map[0 := Worker(r1, FirstTest)]);
    run, s := Step(disk, start, run, Work(0));
    assert s == Sys(cache, start, map[0 := Worker(r1, FirstLookup)]);
    run, s := Step(disk, start, run, Work(0));
    assert s == Sys(cache, start, map[0 := Worker(r1, Fetching)]);
    run, s := Step(disk, start, run, Work(0));
  }

  lemma PutNext(disk: Disk, s: Sys, r: Request, v: MetricValue, at: int)
    requires s.cache.initialized && s.workers == map[0 := Worker(r, PutTest(v, at))]
    ensures Next(disk, s, Work(0)) == s.(workers := map[0 := Worker(r, Storing(v, at))])
  {
  }

  lemma StoreNext(disk: Disk, s: Sys, r: Request, v: MetricValue, at: int)
    requires s.workers == map[0 := Worker(r, Storing(v, at))]
    ensures Next(disk, s, Work(0)).workers == map[0 := Worker(r, SecondTest)]
    ensures Next(disk, s, Work(0)).cache == CacheSpec.Store(s.cache, Key(r), v, s.now)
    ensures Next(disk, s, Work(0)).now == s.now
  {
  }

  /** And one after which it has stored what it read. */
  lemma FirstStores(disk: Disk, start: int, r1: Request, v: MetricValue) returns (run: seq<Label>, s: Sys)
    requires r1.useCache && Read(disk, r1, start) == Some(v)
    ensures Spawns(run, r1, r1) && s == Exec(disk, start, run)
    ensures s.now == start && 1 !in s.workers
    ensures s.cache == CacheSpec.Store(CacheSpec.State(map[], 60, true), Key(r1), v, start)
  {
    run, s := FirstFetches(disk, start, r1, v);
    PutNext(disk, s, r1, v, start);
    run, s := Step(disk, start, run, Work(0));
    StoreNext(disk, s, r1, v, start);
    run, s := Step(disk, start, run, Work(0));
  }

  /** A new worker finds what is stored under its key. */
  lemma SpawnNext(disk: Disk, s: Sys, r: Request)
    requires 1 !in s.workers && s.cache.initialized && r.useCache
    ensures Next(disk, s, Spawn(1, r)) == s.(workers := s.workers[1 := Worker(r, FirstTest)])
    ensures Next(disk, Next(disk, s, Spawn(1, r)), Work(1)) == s.(workers := s.workers[1 := Worker(r, FirstLookup)])
  {
  }

  lemma LookupNext(disk: Disk, s: Sys, r: Request, v: MetricValue)
    requires 1 in s.workers && s.workers[1] == Worker(r, FirstLookup)
    requires CacheSpec.Lookup(s.cache, Key(r), s.now) == Some(v)
    ensures Next(disk, s, Work(1)).workers[1].phase == Done(Some(v))
  {
  }

  /** Two requests with one key: the second is answered with what the first one read. */
  lemma SharedEntry(disk: Disk, start: int, r1: Request, r2: Request, v: MetricValue) returns (run: seq<Label>)
    requires r1.useCache && r2.useCache && Key(r1) == Key(r2)
    requires Read(disk, r1, start) == Some(v)
    ensures Spawns(run, r1, r2)
    ensures Hits(disk, start, run, 1, Cloned(v)) && Exec(disk, start, run).workers[1].req == r2
  {
    ReadClonable(disk, r1, start);
    var s: Sys;
    run, s := FirstStores(disk, start, r1, v);
    SpawnNext(disk, s, r2);
    run, s := Step(disk, start, run, Spawn(1, r2));
    run, s := Step(disk, start, run, Work(1));
    LookupNext(disk, s, r2, Cloned(v));
    ExecMore(disk, start, run, Work(1));
  }

  /** Two parameters for one file: on any archive that can be read, the second request is answered with
      the first one's parameter, which it could never have read itself. */
  lemma ParamOfAnother(disk: Disk, start: int, r1: Request, r2: Request) returns (run: seq<Label>, v: MetricValue)
    requires r1.useCache && r2.useCache && r1.path == r2.path && r1.period == r2.period && ParamOf(r1) != ParamOf(r2)
    requires Read(disk, r1, start).Some?
    ensures Hits(disk, start, run, 1, v) && Exec(disk, start, run).workers[1].req == r2
    ensures v.param1 == Some(ParamOf(r1)) && forall t, repaired :: !OwnReading(disk, r2, t, v, repaired)
  {
    v := Read(disk, r1, start).value;
    run := SharedEntry(disk, start, r1, r2, v);
  }

  ghost predicate OneSource(disk: Disk, r: Request, t: int) {
    disk(r.path, r.period, t).Some? && |disk(r.path, r.period, t).value.names| == 1
  }

  /** A plain and a summed metric over one file: on any archive that can be read, the second request is
      answered with the series of the first one's transform. At that moment they are its own exactly when the
      file has one data source, named "total", and no value is missing; and a file with any other number of
      data sources never gives them. */
  lemma TransformOfAnother(disk: Disk, start: int, r1: Request, r2: Request) returns (run: seq<Label>, v: MetricValue)
    requires r1.useCache && r2.useCache && r1.path == r2.path && r1.period == r2.period && r1.sum != r2.sum
    requires Read(disk, r1, start).Some?
    ensures Hits(disk, start, run, 1, v) && Exec(disk, start, run).workers[1].req == r2
    ensures var f := disk(r1.path, r1.period, start).value;
            Some(v.series) == Extraction.Reading(f, !r2.sum)
            && (Extraction.Reading(f, r2.sum) == Some(v.series) <==> Extraction.TotalOnly(f))
    ensures (forall t :: !OneSource(disk, r2, t)) ==> forall t, repaired :: !OwnReading(disk, r2, t, v, repaired)
  {
    v := Read(disk, r1, start).value;
    run := SharedEntry(disk, start, r1, r2, v);
    Extraction.TransformsAgree(disk(r1.path, r1.period, start).value);
    if forall t :: !OneSource(disk, r2, t) {
      assert |v.series| == 1 <==> r1.sum by { assert !OneSource(disk, r2, start); }
      forall t, repaired ensures !OwnReading(disk, r2, t, v, repaired) {
        assert !OneSource(disk, r2, t);
      }
    }
  }

  lemma Step(disk: Disk, start: int, run: seq<Label>, l: Label) returns (more: seq<Label>, s: Sys)
    ensures more == run + [l]
    ensures s == Exec(disk, start, more) == Next(disk, Exec(disk, start, run), l)
  {
    more := run + [l];
    ExecMore(disk, start, run, l);
    s := Exec(disk, start, more);
  }

  // ----- a stored answer is not lost -----

  predicate Undisturbed(run: seq<Label>, j: int) {
    forall i :: 0 <= j < i < |run| ==> !run[i].Free? && !run[i].Init?
  }

  lemma {:induction false} TimeToLive(disk: Disk, start: int, run: seq<Label>)
    ensures Exec(disk, start, run).cache.ttl > 0
  {
    if run != [] {
      TimeToLive(disk, start, run[..|run| - 1]);
    }
  }

  /** As long as nobody frees or re-initializes the cache, a key stored at step `j` keeps an entry
      that lives at least a time to live from then, whoever stores it again. */
  lemma {:induction false} EntryLives(disk: Disk, start: int, run: seq<Label>, j: int, key: string)
    requires StoresAt(disk, start, run, j, key) && Undisturbed(run, j)
    requires Exec(disk, start, run[..j]).cache.initialized
    ensures var s, s0 := Exec(disk, start, run), Exec(disk, start, run[..j]);
            s.cache.initialized && s.cache.ttl == s0.cache.ttl && s.now >= s0.now
            && key in s.cache.entries && s.cache.entries[key].expires >= s0.now + s0.cache.ttl
  {
    var n := |run| - 1;
    TimeToLive(disk, start, run[..j]);
    if j < n {
      var pre := run[..n];
      assert pre[..j] == run[..j];
      EntryLives(disk, start, pre, j, key);
    }
  }

  /** All data in the cache can be copied. */
  lemma EntriesClonable(disk: Disk, start: int, run: seq<Label>, key: string)
    requires key in Exec(disk, start, run).cache.entries
    ensures Clonable(Exec(disk, start, run).cache.entries[key].value)
  {
    var j := EntryStored(disk, start, run, key);
    WorkersSound(disk, start, run[..j], run[j].w);
    var storer := StorerAt(disk, start, run, j, key);
    ReadClonable(disk, storer.req, storer.phase.at);
  }

  /** The second get of a fetch answers, unless the time to live has passed since the worker's own put
      or the cache was freed or re-initialized in between. */
  lemma SecondGetAnswers(disk: Disk, start: int, run: seq<Label>, j: int, w: nat)
    requires w in Exec(disk, start, run).workers && Exec(disk, start, run).workers[w].phase.SecondLookup?
    requires StoresAt(disk, start, run, j, Key(Exec(disk, start, run).workers[w].req)) && Undisturbed(run, j)
    requires Exec(disk, start, run[..j]).cache.initialized
    requires Exec(disk, start, run).now < Exec(disk, start, run[..j]).now + Exec(disk, start, run[..j]).cache.ttl
    ensures exists v :: Exec(disk, start, run + [Work(w)]).workers[w].phase == Done(Some(v))
  {
    var s := Exec(disk, start, run);
    var key := Key(s.workers[w].req);
    EntryLives(disk, start, run, j, key);
    EntriesClonable(disk, start, run, key);
    ExecMore(disk, start, run, Work(w));
    assert Exec(disk, start, run + [Work(w)]).workers[w].phase == Done(Some(Cloned(s.cache.entries[key].value)));
  }

  // ----- every answer, and that there is one -----

  /** What made worker `w` answer `r` in state `s`: without the cache, what it read then; with it, a hit in one
      of the two lookups, or nothing after a failed read, a cache that is off, or a second miss. */
  predicate Answers(disk: Disk, s: Sys, w: nat, r: Option<MetricValue>) {
    w in s.workers &&
    var wk := s.workers[w];
    if !wk.req.useCache then wk.phase.Fetching? && r == Read(disk, wk.req, s.now)
    else if r.Some? then
      (wk.phase.FirstLookup? || wk.phase.SecondLookup?) && r == CacheSpec.Lookup(s.cache, Key(wk.req), s.now)
    else
      (wk.phase.Fetching? && Read(disk, wk.req, s.now) == None)
      || (wk.phase.SecondTest? && !s.cache.initialized)
      || (wk.phase.SecondLookup? && CacheSpec.Lookup(s.cache, Key(wk.req), s.now) == None)
  }

  /** In every run, each answer was given by a step `j` of its worker, for one of these reasons. */
  lemma {:induction false} AnswerGiven(disk: Disk, start: int, run: seq<Label>, w: nat) returns (j: nat)
    requires w in Exec(disk, start, run).workers && Exec(disk, start, run).workers[w].phase.Done?
    ensures j < |run| && run[j] == Work(w)
    ensures Answers(disk, Exec(disk, start, run[..j]), w, Exec(disk, start, run).workers[w].phase.result)
    ensures Exec(disk, start, run[..j]).workers[w].req == Exec(disk, start, run).workers[w].req
  {
    var n := |run| - 1;
    var pre := run[..n];
    var s := Exec(disk, start, pre);
    if w in s.workers && s.workers[w].phase.Done? {
      j := AnswerGiven(disk, start, pre, w);
      assert pre[..j] == run[..j];
    } else {
      j := n;
      CacheUsers(disk, start, pre, w);
      AdvanceAnswers(disk, s, w);
    }
  }

  lemma AdvanceAnswers(disk: Disk, s: Sys, w: nat)
    requires w in s.workers && !s.workers[w].phase.Done? && Advance(disk, s, s.workers[w]).0.Done?
    requires !(s.workers[w].phase.FirstTest? || s.workers[w].phase.Fetching?) ==> s.workers[w].req.useCache
    ensures Answers(disk, s, w, Advance(disk, s, s.workers[w]).0.result)
  {
  }

  /** How far a worker is. */
  function Rank(p: Phase): nat {
    match p
    case FirstTest => 0
    case FirstLookup => 1
    case Fetching => 2
    case PutTest(_, _) => 3
    case Storing(_, _) => 4
    case SecondTest => 5
    case SecondLookup => 6
    case Done(_) => 7
  }

  /** Every step of a worker takes it further, so it answers after at most seven of its own steps; and only
      a worker that uses the cache ever changes it. */
  lemma StepAdvances(disk: Disk, s: Sys, w: nat)
    requires w in s.workers && !s.workers[w].phase.Done?
    requires !(s.workers[w].phase.FirstTest? || s.workers[w].phase.Fetching?) ==> s.workers[w].req.useCache
    ensures Rank(Next(disk, s, Work(w)).workers[w].phase) > Rank(s.workers[w].phase)
    ensures Next(disk, s, Work(w)).cache != s.cache ==> s.workers[w].req.useCache && s.workers[w].phase.Storing?
  {
  }

  // ----- what is not up to the workers -----

  function Elapsed(run: seq<Label>): nat {
    if run == [] then 0
    else
      var l := run[|run| - 1];
      Elapsed(run[..|run| - 1]) + (if l.Tick? then l.d else 0)
  }

  /** The clock shows the ticks of the run; right after a free nothing is stored and the cache is off. */
  lemma {:induction false} ClockAndFree(disk: Disk, start: int, run: seq<Label>)
    ensures Exec(disk, start, run).now == start + Elapsed(run)
    ensures run != [] && run[|run| - 1].Free? ==>
      Exec(disk, start, run).cache.entries == map[] && !Exec(disk, start, run).cache.initialized
  {
    if run != [] {
      ClockAndFree(disk, start, run[..|run| - 1]);
    }
  }
}
