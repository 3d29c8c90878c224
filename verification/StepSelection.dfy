/** Choosing the resolution of an RRD fetch (src/rrd/reader.c, `select_step_from_rras`). */
module StepSelection {

  datatype Archive = Archive(cf: string, step: nat, pdpPerRow: nat)

  const MIN_POINTS := 100
  const MAX_POINTS := 2400
  const INT_MAX := 0x7fff_ffff

  predicate Average(a: Archive) { a.cf == "AVERAGE" }

  predicate Eligible(a: Archive, base: nat) { Average(a) && a.step >= base }

  predicate Raw(a: Archive) { Average(a) && a.pdpPerRow == 1 }

  /** The points of a range at a step, rounded up. */
  function Points(range: nat, step: nat): (n: nat)
    requires step > 0
  {
    (range + step - 1) / step
  }

  predicate Good(n: nat) { MIN_POINTS <= n <= MAX_POINTS }

  lemma FewerPoints(range: nat, a: nat, b: nat)
    requires 0 < a <= b
    ensures Points(range, b) <= Points(range, a)
  {
    var n, m := Points(range, a), Points(range, b);
    CeilBounds(range, a);
    CeilBounds(range, b);
    if m > n {
      assert b * (m - 1) >= a * (m - 1) >= a * n by { Mul(a, b, m - 1); Mul2(a, n, m - 1); }
    }
  }

  lemma CeilBounds(range: nat, step: nat)
    requires step > 0
    ensures var n := Points(range, step);
            range <= step * n && (n > 0 ==> step * (n - 1) < range)
  {
  }

  lemma Mul(a: nat, b: nat, k: nat)
    requires a <= b
    ensures a * k <= b * k
  {
  }

  lemma Mul2(a: nat, k: nat, l: nat)
    requires k <= l
    ensures a * k <= a * l
  {
  }

  // ----- what a choice must be -----

  predicate GoodAt(rras: seq<Archive>, i: int, range: nat, base: nat)
    requires AllSteps(rras)
  {
    0 <= i < |rras| && Eligible(rras[i], base) && Good(Points(range, rras[i].step))
  }

  predicate AllSteps(rras: seq<Archive>) { forall i :: 0 <= i < |rras| ==> rras[i].step > 0 }

  /** The first archive with an acceptable number of points. */
  predicate FirstGood(rras: seq<Archive>, i: int, range: nat, base: nat)
    requires AllSteps(rras)
  {
    GoodAt(rras, i, range, base) && forall j :: 0 <= j < i ==> !GoodAt(rras, j, range, base)
  }

  /** Among the first `n` archives, none acceptable: an eligible one with the most points. Below the
      window the earliest of these, above it one with the smallest step. */
  predicate Finest(rras: seq<Archive>, n: int, i: int, range: nat, base: nat)
    requires AllSteps(rras) && n <= |rras|
  {
    0 <= i < n && Eligible(rras[i], base) &&
    forall j :: 0 <= j < n && Eligible(rras[j], base) ==>
      var p, q := Points(range, rras[i].step), Points(range, rras[j].step);
      q <= p && (p < MIN_POINTS && j < i ==> q < p) && (p > MAX_POINTS ==> rras[i].step <= rras[j].step)
  }

  ghost predicate AnyEligible(rras: seq<Archive>, base: nat) {
    exists i :: 0 <= i < |rras| && Eligible(rras[i], base)
  }

  predicate FirstRaw(rras: seq<Archive>, i: int) {
    0 <= i < |rras| && Raw(rras[i]) && forall j :: 0 <= j < i ==> !Raw(rras[j])
  }

  /** The chosen step, whatever the archives: an acceptable archive if there is one, else the finest
      eligible one, else the raw archive when the whole range is recent, else the base step. */
  ghost predicate Choice(rras: seq<Archive>, range: nat, period: int, base: nat, step: nat)
    requires AllSteps(rras)
  {
    if exists i :: GoodAt(rras, i, range, base) then
      exists i :: FirstGood(rras, i, range, base) && step == rras[i].step
    else if AnyEligible(rras, base) then
      exists i :: Finest(rras, |rras|, i, range, base) && step == rras[i].step
    else if range <= period && exists i :: FirstRaw(rras, i) then
      exists i :: FirstRaw(rras, i) && step == rras[i].step
    else step == base
  }

  /** The range is an `int` number of seconds for every caller, so the point counts fit an `int` too. */
  method SelectStep(rras: seq<Archive>, range: nat, period: int, baseStep: nat) returns (optimalStep: nat)
    requires AllSteps(rras) && 0 < range <= INT_MAX && baseStep > 0
    ensures Choice(rras, range, period, baseStep, optimalStep)
  {
    optimalStep := 0;
    var bestNumPoints := 0;
    ghost var best := -1;
    for i := 0 to |rras|
      invariant forall j :: 0 <= j < i ==> !GoodAt(rras, j, range, baseStep)
      invariant optimalStep == 0 ==> forall j :: 0 <= j < i ==> !Eligible(rras[j], baseStep)
      invariant optimalStep != 0 ==> Finest(rras, i, best, range, baseStep) && !GoodAt(rras, best, range, baseStep)
      invariant optimalStep != 0 ==> optimalStep == rras[best].step && bestNumPoints == Points(range, optimalStep)
    {
      if rras[i].cf != "AVERAGE" { continue; }
      var step := rras[i].step;
      if step < baseStep { continue; }
      var numPoints := Points(range, step);
      if numPoints >= MIN_POINTS && numPoints <= MAX_POINTS {
        assert FirstGood(rras, i, range, baseStep);
        return step;
      }
      NextFinest(rras, i, if optimalStep == 0 then -1 else best, range, baseStep);
      if numPoints < MIN_POINTS && (optimalStep == 0 || numPoints > bestNumPoints) {
        optimalStep, bestNumPoints, best := step, numPoints, i;
      }
      if numPoints > MAX_POINTS && (optimalStep == 0 || step < optimalStep) {
        optimalStep, bestNumPoints, best := step, numPoints, i;
      }
    }
    if optimalStep == 0 {
      optimalStep := Fallback(rras, range, period, baseStep);
    }
  }

  /** An eligible archive outside the window either beats the best so far (-1: there is none) by the
      loop's tests and is the finest, or leaves it the finest. */
  lemma NextFinest(rras: seq<Archive>, i: nat, best: int, range: nat, base: nat)
    requires AllSteps(rras) && i < |rras| && Eligible(rras[i], base) && !Good(Points(range, rras[i].step))
    requires best == -1 ==> forall j :: 0 <= j < i ==> !Eligible(rras[j], base)
    requires best != -1 ==> Finest(rras, i, best, range, base) && !Good(Points(range, rras[best].step))
    ensures var next := if best == -1 || Beats(rras[i].step, rras[best].step, range) then i else best;
            Finest(rras, i + 1, next, range, base)
  {
    if best != -1 {
      var a, b := rras[i].step, rras[best].step;
      Compare(range, a, b);
      if Beats(a, b, range) {
        forall j | 0 <= j < i && Eligible(rras[j], base)
          ensures Points(range, rras[j].step) <= Points(range, a)
          ensures Points(range, a) < MIN_POINTS ==> Points(range, rras[j].step) < Points(range, a)
          ensures Points(range, a) > MAX_POINTS ==> a <= rras[j].step
        {
          Compare(range, a, rras[j].step);
        }
      }
    }
  }

  predicate Beats(a: nat, b: nat, range: nat)
    requires a > 0 && b > 0
  {
    var p := Points(range, a);
    (p < MIN_POINTS && p > Points(range, b)) || (p > MAX_POINTS && a < b)
  }

  lemma Compare(range: nat, a: nat, b: nat)
    requires a > 0 && b > 0
    ensures a <= b ==> Points(range, b) <= Points(range, a)
    ensures b <= a ==> Points(range, a) <= Points(range, b)
  {
    if a <= b {
      FewerPoints(range, a, b);
    }
    if b <= a {
      FewerPoints(range, b, a);
    }
  }

  method Fallback(rras: seq<Archive>, range: nat, period: int, baseStep: nat) returns (step: nat)
    requires AllSteps(rras) && baseStep > 0
    ensures if range <= period && exists i :: FirstRaw(rras, i)
            then exists i :: FirstRaw(rras, i) && step == rras[i].step
            else step == baseStep
  {
    if range <= period {
      for i := 0 to |rras|
        invariant forall j :: 0 <= j < i ==> !Raw(rras[j])
      {
        if rras[i].cf == "AVERAGE" && rras[i].pdpPerRow == 1 {
          assert FirstRaw(rras, i);
          return rras[i].step;
        }
      }
    }
    return baseStep;
  }

  /** The archives, the range and the period leave no choice: two steps that meet the description are equal. */
  lemma ChoiceIsUnique(rras: seq<Archive>, range: nat, period: int, base: nat, a: nat, b: nat)
    requires AllSteps(rras) && Choice(rras, range, period, base, a) && Choice(rras, range, period, base, b)
    ensures a == b
  {
    if exists i :: GoodAt(rras, i, range, base) {
      var i :| FirstGood(rras, i, range, base) && a == rras[i].step;
      var j :| FirstGood(rras, j, range, base) && b == rras[j].step;
      assert i == j;
    } else if AnyEligible(rras, base) {
      var i :| Finest(rras, |rras|, i, range, base) && a == rras[i].step;
      var j :| Finest(rras, |rras|, j, range, base) && b == rras[j].step;
      assert !GoodAt(rras, i, range, base) && !GoodAt(rras, j, range, base);
    }
  }

  /** The chosen step is always usable, acceptable when an archive is, and else not beaten. */
  lemma ChoiceIsGood(rras: seq<Archive>, range: nat, period: int, base: nat, step: nat)
    requires AllSteps(rras) && range > 0 && base > 0 && Choice(rras, range, period, base, step)
    ensures step > 0
    ensures (exists i :: GoodAt(rras, i, range, base)) ==> step >= base && Good(Points(range, step))
    ensures AnyEligible(rras, base) ==>
      step >= base && forall j :: 0 <= j < |rras| && Eligible(rras[j], base) ==>
        Points(range, rras[j].step) <= Points(range, step) || Good(Points(range, step))
  {
    if AnyEligible(rras, base) && !exists i :: GoodAt(rras, i, range, base) {
      var i :| Finest(rras, |rras|, i, range, base) && step == rras[i].step;
    }
  }

  /** An archive of averages that is not finer than the base step, and the points it gives, rounded up. */
  predicate Gives(a: Archive, range: nat, base: nat, n: nat) {
    a.cf == "AVERAGE" && a.step >= base && a.step * n >= range && a.step * n < range + a.step
  }

  lemma GivesPoints(a: Archive, range: nat, base: nat, n: nat)
    requires a.step > 0
    ensures Gives(a, range, base, n) <==> Eligible(a, base) && n == Points(range, a.step)
  {
    var m := Points(range, a.step);
    CeilBounds(range, a.step);
    CeilOnly(range, a.step, n, m);
  }

  /** Only one count is the range divided by the step, rounded up. */
  lemma CeilOnly(range: nat, step: nat, n: nat, m: nat)
    requires step > 0 && range <= step * m < range + step
    ensures range <= step * n < range + step <==> n == m
  {
    if n > m {
      Mul2(step, m + 1, n);
    } else if n < m {
      Mul2(step, n + 1, m);
    }
  }

  /** The first archive that gives 100 to 2400 points. */
  ghost predicate InWindow(rras: seq<Archive>, j: int, m: nat, range: nat, base: nat) {
    0 <= j < |rras| && 100 <= m <= 2400 && Gives(rras[j], range, base, m)
    && forall k, n :: 0 <= k < j && Gives(rras[k], range, base, n) ==> !(100 <= n <= 2400)
  }

  /** None gives 100 to 2400, and this one gives the most points: of those below 100 the earliest, of those above
      2400 one with the smallest step. */
  ghost predicate Nearest(rras: seq<Archive>, j: int, m: nat, range: nat, base: nat) {
    0 <= j < |rras| && Gives(rras[j], range, base, m)
    && forall k, n: nat :: 0 <= k < |rras| && Gives(rras[k], range, base, n) ==>
         !(100 <= n <= 2400) && n <= m
         && (m < 100 && k < j ==> n < m) && (m > 2400 ==> rras[j].step <= rras[k].step)
  }

  /** No archive of averages is as coarse as the base step: the first one of single values, if the range lies
      within the period, or else the base step. */
  ghost predicate NoArchive(rras: seq<Archive>, range: nat, period: int, base: nat, step: nat) {
    (forall k :: 0 <= k < |rras| && rras[k].cf == "AVERAGE" ==> rras[k].step < base)
    && ((step == base
         && (range > period || forall k :: 0 <= k < |rras| && rras[k].cf == "AVERAGE" ==> rras[k].pdpPerRow != 1))
        || (range <= period && exists j :: 0 <= j < |rras| && SingleValues(rras, j) && step == rras[j].step))
  }

  predicate SingleValues(rras: seq<Archive>, j: nat)
    requires j < |rras|
  {
    rras[j].cf == "AVERAGE" && rras[j].pdpPerRow == 1
    && forall k :: 0 <= k < j && rras[k].cf == "AVERAGE" ==> rras[k].pdpPerRow != 1
  }

  /** The choice in numbers. */
  lemma ChoiceInNumbers(rras: seq<Archive>, range: nat, period: int, base: nat, step: nat)
    requires AllSteps(rras) && Choice(rras, range, period, base, step)
    ensures (exists j, m :: InWindow(rras, j, m, range, base) && step == rras[j].step)
         || (exists j, m :: Nearest(rras, j, m, range, base) && step == rras[j].step)
         || NoArchive(rras, range, period, base, step)
  {
    if exists k :: GoodAt(rras, k, range, base) {
      var j :| FirstGood(rras, j, range, base) && step == rras[j].step;
      FirstIsInWindow(rras, j, range, base);
    } else if AnyEligible(rras, base) {
      var j :| Finest(rras, |rras|, j, range, base) && step == rras[j].step;
      FinestIsNearest(rras, j, range, base);
    } else if range <= period && exists i :: FirstRaw(rras, i) {
      var j :| FirstRaw(rras, j) && step == rras[j].step;
      assert SingleValues(rras, j);
    } else if exists k :: 0 <= k < |rras| && Raw(rras[k]) && range <= period {
      var k :| 0 <= k < |rras| && Raw(rras[k]);
      SomeFirstRaw(rras, k);
    }
  }

  lemma {:induction false} SomeFirstRaw(rras: seq<Archive>, k: nat)
    requires k < |rras| && Raw(rras[k])
    ensures exists i :: FirstRaw(rras, i)
  {
    if j :| 0 <= j < k && Raw(rras[j]) {
      SomeFirstRaw(rras, j);
    } else {
      assert FirstRaw(rras, k);
    }
  }

  lemma FinestIsNearest(rras: seq<Archive>, j: int, range: nat, base: nat)
    requires AllSteps(rras) && Finest(rras, |rras|, j, range, base)
    requires !exists k :: GoodAt(rras, k, range, base)
    ensures Nearest(rras, j, Points(range, rras[j].step), range, base)
  {
    GivesPoints(rras[j], range, base, Points(range, rras[j].step));
    forall k, n | 0 <= k < |rras| && Gives(rras[k], range, base, n)
      ensures Eligible(rras[k], base) && n == Points(range, rras[k].step) && !(100 <= n <= 2400)
    {
      GivesPoints(rras[k], range, base, n);
      assert !GoodAt(rras, k, range, base);
    }
  }

  lemma FirstIsInWindow(rras: seq<Archive>, j: int, range: nat, base: nat)
    requires AllSteps(rras) && FirstGood(rras, j, range, base)
    ensures InWindow(rras, j, Points(range, rras[j].step), range, base)
  {
    GivesPoints(rras[j], range, base, Points(range, rras[j].step));
    forall k, n | 0 <= k < j && Gives(rras[k], range, base, n) ensures !(100 <= n <= 2400) {
      GivesPoints(rras[k], range, base, n);
      assert !GoodAt(rras, k, range, base);
    }
  }
}
