/** Which metric serves a requested path (src/cfg.c, `find_metric_config`) and the parameter taken from
    the path (src/path_util.c, `extract_param_from_path`). */
module Routing {
  import opened CStrings

  /** `id` stands for the rest of the configuration of a metric. */
  datatype Metric = Metric(endpoint: string, requiresParam: bool, id: int)

  /** The endpoint, a slash and whatever follows. The empty endpoint never matches this way. */
  predicate ParamMatch(m: Metric, path: string) {
    m.requiresParam && m.endpoint != "" && m.endpoint + "/" <= path
  }

  predicate HasExact(ms: seq<Metric>, path: string) { exists m :: m in ms && m.endpoint == path }

  /** An exact match if there is one, else a parametrized match with the longest endpoint, else nothing. */
  ghost predicate Chosen(ms: seq<Metric>, path: string, r: Option<Metric>) {
    match r
    case None => forall m :: m in ms ==> m.endpoint != path && !ParamMatch(m, path)
    case Some(m) =>
      m in ms &&
      if HasExact(ms, path) then m.endpoint == path
      else ParamMatch(m, path) && forall n :: n in ms && ParamMatch(n, path) ==> |n.endpoint| <= |m.endpoint|
  }

  /** `strncmp` with the length of the endpoint, then the byte after it. */
  method PrefixMatch(m: Metric, path: string) returns (slash: bool)
    ensures slash <==> m.endpoint + "/" <= path
  {
    var n := |m.endpoint|;
    slash := false;
    if m.endpoint <= path {
      slash := n < |path| && path[n] == '/';
      if slash {
        assert path[..n + 1] == m.endpoint + "/";
      }
    }
  }

  /** The index of the metric, or -1; of several that qualify alike, the first. */
  method FindMetricConfig(ms: seq<Metric>, path: string) returns (found: int)
    ensures -1 <= found < |ms|
    ensures Chosen(ms, path, if found < 0 then None else Some(ms[found]))
    ensures found >= 0 && ms[found].endpoint != path ==>
      ms[found].requiresParam && 0 < |ms[found].endpoint| < |path|
      && path[..|ms[found].endpoint|] == ms[found].endpoint && path[|ms[found].endpoint|] == '/'
    ensures forall m :: m in ms && m.requiresParam && 0 < |m.endpoint| < |path|
                        && m.endpoint == path[..|m.endpoint|] && path[|m.endpoint|] == '/' ==>
      found >= 0 && (ms[found].endpoint == path || |m.endpoint| <= |ms[found].endpoint|)
    ensures forall j :: 0 <= j < found ==>
      !(ms[j].endpoint == ms[found].endpoint && (ms[j].endpoint == path || ParamMatch(ms[j], path)))
  {
    for i := 0 to |ms|
      invariant forall j :: 0 <= j < i ==> ms[j].endpoint != path
    {
      if ms[i].endpoint == path {
        return i;
      }
    }
    found := -1;
    var bestLen := 0;
    for i := 0 to |ms|
      invariant -1 <= found < i && (found == -1 ==> bestLen == 0)
      invariant found >= 0 ==> ParamMatch(ms[found], path) && bestLen == |ms[found].endpoint|
      invariant forall j :: 0 <= j < i && ParamMatch(ms[j], path) ==> |ms[j].endpoint| <= bestLen
      invariant forall j :: 0 <= j < found && ParamMatch(ms[j], path) ==> |ms[j].endpoint| < bestLen
    {
      if ms[i].requiresParam {
        var slash := PrefixMatch(ms[i], path);
        if slash && |ms[i].endpoint| > bestLen {
          found, bestLen := i, |ms[i].endpoint|;
        }
      }
    }
  }

  predicate Distinct(ms: seq<Metric>) {
    forall i, j :: 0 <= i < j < |ms| ==> ms[i].endpoint != ms[j].endpoint
  }

  lemma SamePrefix(a: string, b: string, path: string)
    requires a + "/" <= path && b + "/" <= path && |a| == |b|
    ensures a == b
  {
    assert a == path[..|a|] by { assert path[..|a| + 1] == a + "/"; }
    assert b == path[..|b|] by { assert path[..|b| + 1] == b + "/"; }
  }

  lemma OneMetric(ms: seq<Metric>, m: Metric, n: Metric)
    requires Distinct(ms) && m in ms && n in ms && m.endpoint == n.endpoint
    ensures m == n
  {
    var i :| 0 <= i < |ms| && ms[i] == m;
    var j :| 0 <= j < |ms| && ms[j] == n;
  }

  /** With distinct endpoints the choice does not depend on the order of the list. */
  lemma OrderIrrelevant(ms: seq<Metric>, ns: seq<Metric>, path: string, r: Option<Metric>, q: Option<Metric>)
    requires Distinct(ms) && forall m :: m in ms <==> m in ns
    requires Chosen(ms, path, r) && Chosen(ns, path, q)
    ensures r == q
  {
    if r.Some? && q.Some? {
      if !HasExact(ms, path) {
        SamePrefix(r.value.endpoint, q.value.endpoint, path);
      }
      OneMetric(ms, r.value, q.value);
    }
  }

  // ----- the parameter -----

  /** `extract_param_from_path` */
  function ExtractParam(path: string, endpoint: string): Option<string> {
    if !(endpoint <= path) then None
    else
      var rest := path[|endpoint|..];
      var start := if rest != "" && rest[0] == '/' then rest[1..] else rest;
      if start == "" then None else Some(start)
  }

  /** A parametrized match is taken apart without loss: nothing only when the path ends with the slash. */
  lemma ParamRestoresPath(m: Metric, path: string)
    requires ParamMatch(m, path)
    ensures var p := ExtractParam(path, m.endpoint);
            if p.Some? then p.value != "" && path == m.endpoint + "/" + p.value else path == m.endpoint + "/"
  {
    var n := |m.endpoint|;
    assert path[..n + 1] == m.endpoint + "/";
    assert path[n] == '/' && path[..n] == m.endpoint;
    assert path == path[..n + 1] + path[n + 1..];
    assert path[n..][1..] == path[n + 1..];
  }

  /** Every parameter reaches its metric: the path built from an endpoint and a parameter is routed to a
      metric whose endpoint is at least as long, and back to this very metric and parameter when no
      other endpoint continues it. */
  lemma ParamArrives(ms: seq<Metric>, m: Metric, param: string, r: Option<Metric>)
    requires Distinct(ms) && m in ms && m.requiresParam && m.endpoint != "" && param != ""
    requires Chosen(ms, m.endpoint + "/" + param, r)
    requires forall n :: n in ms && n != m ==> !(m.endpoint + "/" <= n.endpoint)
    ensures r == Some(m) && ExtractParam(m.endpoint + "/" + param, m.endpoint) == Some(param)
  {
    var path := m.endpoint + "/" + param;
    assert path[..|m.endpoint| + 1] == m.endpoint + "/";
    assert ParamMatch(m, path);
    assert path[|m.endpoint|..][1..] == param;
    var n := r.value;
    assert n.endpoint != path || n == m;
    assert path[..|n.endpoint| + 1] == n.endpoint + "/" || n == m;
    if |n.endpoint| == |m.endpoint| {
      SamePrefix(n.endpoint, m.endpoint, path);
      OneMetric(ms, m, n);
    }
  }

  /** The parameter is what follows the endpoint and one slash, or, where no slash follows, all that follows. */
  lemma ParamExactly(path: string, endpoint: string, p: string)
    ensures ExtractParam(path, endpoint) == Some(p) <==>
      p != "" && (path == endpoint + "/" + p || (path == endpoint + p && p[0] != '/'))
  {
    var n := |endpoint|;
    if endpoint <= path {
      assert path == endpoint + path[n..];
      if path[n..] != "" && path[n] == '/' {
        assert path == endpoint + "/" + path[n + 1..] && path[n..][1..] == path[n + 1..];
        assert path == endpoint + p ==> path[n..] == p;
        assert path == endpoint + "/" + p ==> path[n + 1..] == p;
      } else {
        assert path == endpoint + p ==> path[n..] == p;
        assert (endpoint + "/" + p)[n] == '/';
      }
    } else {
      assert endpoint <= endpoint + "/" + p && endpoint <= endpoint + p;
    }
  }
}
