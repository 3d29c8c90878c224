/** CPU utilization from successive `/proc/stat` readings (src/proc_source.c). Doubles are exact. */
module CpuSampling {

  /** The counters of one reading: user, nice, system, idle, iowait, irq, softirq, steal. */
  datatype Stat = Stat(user: nat, nice: nat, system: nat, idle: nat, iowait: nat, irq: nat, softirq: nat, steal: nat)

  datatype Sample = Sample(busy: nat, total: nat)

  const LIMIT := 0x8000_0000_0000_0000

  /** `proc_parse_cpu_stat` after its fields are read. */
  function Summed(v: Stat): (s: Sample)
    ensures s.busy <= s.total
  {
    var busy := v.user + v.nice + v.system + v.irq + v.softirq + v.steal;
    Sample(busy, busy + (v.idle + v.iowait))
  }

  /** Counters whose signed differences do not overflow. */
  predicate Bounded(s: Sample) { s.busy < LIMIT && s.total < LIMIT }

  /** `proc_cpu_utilization` */
  function Utilization(s0: Sample, s1: Sample): (util: real)
    requires Bounded(s0) && Bounded(s1)
    ensures 0.0 <= util <= 100.0
  {
    var dt, db := s1.total - s0.total, s1.busy - s0.busy;
    if dt <= 0 then 0.0
    else
      var util := (db as real / dt as real) * 100.0;
      var util := if util < 0.0 then 0.0 else util;
      if util > 100.0 then 100.0 else util
  }

  function Clamp(x: int, hi: int): int { if x < 0 then 0 else if x > hi then hi else x }

  lemma Percent(db: real, dt: real)
    requires dt > 0.0
    ensures (db / dt) * 100.0 * dt == 100.0 * db
    ensures (db / dt) * 100.0 < 0.0 <==> db < 0.0
    ensures (db / dt) * 100.0 > 100.0 <==> db > dt
  {
    var q := db / dt;
    assert q * dt == db;
    assert q < 0.0 <==> q * dt < 0.0;
    assert q > 1.0 <==> q * dt > 1.0 * dt;
  }

  /** Utilization times elapsed ticks is the busy ticks, as far as they fit the elapsed ones. */
  lemma TicksAccounted(s0: Sample, s1: Sample)
    requires Bounded(s0) && Bounded(s1)
    requires s1.total > s0.total
    ensures Utilization(s0, s1) * (s1.total - s0.total) as real
         == 100.0 * Clamp(s1.busy - s0.busy, s1.total - s0.total) as real
  {
    Percent((s1.busy - s0.busy) as real, (s1.total - s0.total) as real);
  }

  // ----- the shared previous sample -----

  class Sampler {
    var busy: nat
    var total: nat
    var have: bool

    ghost predicate Valid()
      reads this
    {
      busy < LIMIT && total < LIMIT && (!have ==> busy == 0 && total == 0)
    }

    ghost function Previous(): Sample
      reads this
    {
      Sample(busy, total)
    }

    constructor ()
      ensures Valid() && !have && Previous() == Sample(0, 0)
    {
      busy, total, have := 0, 0, false;
    }

    /** One reading (the region under the mutex): utilization since the one before, or since boot. */
    method Read(s: Sample) returns (util: real)
      requires Valid() && Bounded(s)
      modifies this
      ensures Valid() && have && Previous() == s
      ensures util == Utilization(old(Previous()), s)
    {
      if have {
        util := Utilization(Sample(busy, total), s);
      } else {
        util := Utilization(Sample(0, 0), s);
      }
      busy, total, have := s.busy, s.total, true;
    }
  }

  // ----- runs -----

  function Last(samples: seq<Sample>): Sample {
    if samples == [] then Sample(0, 0) else samples[|samples| - 1]
  }

  /** A reported utilization times the ticks it stands for. */
  function Share(p: Sample, s: Sample): real {
    if Bounded(p) && Bounded(s) then Utilization(p, s) * (s.total - p.total) as real else 0.0
  }

  /** A quantity of each sample and the one before it, added up over a run. */
  function Sum(f: (Sample, Sample) -> real, samples: seq<Sample>): real {
    if samples == [] then 0.0
    else
      var n := |samples| - 1;
      Sum(f, samples[..n]) + f(Last(samples[..n]), samples[n])
  }

  /** No counter of `a` exceeds the one of `b`. */
  predicate NotAfter(a: Stat, b: Stat) {
    a.user <= b.user && a.nice <= b.nice && a.system <= b.system && a.idle <= b.idle
    && a.iowait <= b.iowait && a.irq <= b.irq && a.softirq <= b.softirq && a.steal <= b.steal
  }

  /** Counters that never go back, read in this order. */
  predicate Counting(stats: seq<Stat>) {
    (forall i :: 0 <= i < |stats| ==> Summed(stats[i]).total < LIMIT)
    && forall i :: 0 <= i < |stats| - 1 ==> NotAfter(stats[i], stats[i + 1])
  }

  function AllSummed(stats: seq<Stat>): seq<Sample> { seq(|stats|, i requires 0 <= i < |stats| => Summed(stats[i])) }

  /** Busy time does not go back and does not outgrow the total. */
  predicate Step(p: Sample, s: Sample) { p.busy <= s.busy && s.busy - p.busy <= s.total - p.total }

  lemma StepAccounted(p: Sample, s: Sample)
    requires Bounded(p) && Bounded(s) && Step(p, s)
    ensures Share(p, s) == 100.0 * (s.busy - p.busy) as real
  {
    if s.total > p.total {
      TicksAccounted(p, s);
    }
  }

  lemma {:induction false} Telescope(f: (Sample, Sample) -> real, samples: seq<Sample>)
    requires forall i :: 0 <= i < |samples| ==>
      f(Last(samples[..i]), samples[i]) == 100.0 * (samples[i].busy - Last(samples[..i]).busy) as real
    ensures Sum(f, samples) == 100.0 * Last(samples).busy as real
  {
    if samples != [] {
      var n := |samples| - 1;
      assert forall i :: 0 <= i < n ==> samples[..n][..i] == samples[..i];
      Telescope(f, samples[..n]);
    }
  }

  /** Over any run of readings nothing is lost or counted twice: the reports add up to the busy ticks
      since boot. */
  lemma BusyConserved(stats: seq<Stat>)
    requires Counting(stats)
    ensures Sum(Share, AllSummed(stats)) == 100.0 * Last(AllSummed(stats)).busy as real
  {
    var samples := AllSummed(stats);
    forall i | 0 <= i < |samples|
      ensures Share(Last(samples[..i]), samples[i]) == 100.0 * (samples[i].busy - Last(samples[..i]).busy) as real
    {
      if i > 0 {
        assert NotAfter(stats[i - 1], stats[i - 1 + 1]);
        assert Last(samples[..i]) == Summed(stats[i - 1]);
      }
      StepAccounted(Last(samples[..i]), samples[i]);
    }
    Telescope(Share, samples);
  }

  // ----- which counters are work -----

  /** With counters that do not go back, the utilization is the share of user, nice, system, irq, softirq and
      steal in what all eight have grown by: times the elapsed ticks, 100 for each tick of work. Waiting for input
      and output is no work. */
  lemma WorkShare(a: Stat, b: Stat)
    requires NotAfter(a, b) && Summed(b).total < LIMIT
    ensures var work := (b.user - a.user) + (b.nice - a.nice) + (b.system - a.system)
                        + (b.irq - a.irq) + (b.softirq - a.softirq) + (b.steal - a.steal);
            Share(Summed(a), Summed(b)) == 100.0 * work as real
    ensures Summed(b).total - Summed(a).total
         == (b.user - a.user) + (b.nice - a.nice) + (b.system - a.system) + (b.idle - a.idle)
            + (b.iowait - a.iowait) + (b.irq - a.irq) + (b.softirq - a.softirq) + (b.steal - a.steal)
  {
    GrowthIs(a, b);
    StepAccounted(Summed(a), Summed(b));
  }

  lemma GrowthIs(a: Stat, b: Stat)
    requires NotAfter(a, b)
    ensures Summed(b).busy - Summed(a).busy
         == (b.user - a.user) + (b.nice - a.nice) + (b.system - a.system)
            + (b.irq - a.irq) + (b.softirq - a.softirq) + (b.steal - a.steal)
    ensures Summed(b).total - Summed(a).total
         == Summed(b).busy - Summed(a).busy + (b.idle - a.idle) + (b.iowait - a.iowait)
    ensures 0 <= Summed(b).busy - Summed(a).busy <= Summed(b).total - Summed(a).total
  {
  }

  /** Nothing is reported when the counters stand still or are reset. */
  lemma NoTicks(s0: Sample, s1: Sample)
    requires Bounded(s0) && Bounded(s1) && s1.total <= s0.total
    ensures Utilization(s0, s1) == 0.0
  {
  }
}
