/** CPU records: raw tick counters, a snapshot of the whole machine and
    of each core, and the per-interval deltas with the percentages
    derived from them. */
module Cpu {
  import opened Wrappers
  import Seqs
  import opened Ratio

  /** The eight tick counters of /proc/stat, in its column order. */
  datatype CpuTimes = CpuTimes(
    user: int, nice: int, system: int, idle: int,
    iowait: int, irq: int, softirq: int, steal: int)
  {
    /** Every tick is either busy, idle or waiting on I/O. */
    function Total(): (t: int)
      ensures t == Busy() + idle + iowait
    {
      user + nice + system + idle + iowait + irq + softirq + steal
    }

    /** The ticks spent doing work: everything except idle and iowait. */
    function Busy(): int {
      user + nice + system + irq + softirq + steal
    }

    predicate NonNegative() {
      user >= 0 && nice >= 0 && system >= 0 && idle >= 0
      && iowait >= 0 && irq >= 0 && softirq >= 0 && steal >= 0
    }
  }

  /** Counters that are not negative give a busy count between zero and
      the total, and all of the total is busy when nothing was idle. */
  lemma BusyWithinTotal(t: CpuTimes)
    requires t.NonNegative()
    ensures 0 <= t.Busy() <= t.Total()
    ensures t.idle == 0 && t.iowait == 0 ==> t.Busy() == t.Total()
    ensures t.Total() == 0 ==> t.Busy() == 0
  {
  }

  /** Fresh all-zero counters have no ticks at all. */
  lemma ZeroTimes()
    ensures CpuTimes(0, 0, 0, 0, 0, 0, 0, 0).Total() == 0
    ensures CpuTimes(0, 0, 0, 0, 0, 0, 0, 0).Busy() == 0
  {
  }

  /** One core's counters, tagged with the core's index. */
  datatype CpuCoreTimes = CpuCoreTimes(coreIndex: int, times: CpuTimes)

  /** calculateBusyPercentage: busy ticks over total ticks, 0 for a core
      without ticks. */
  function BusyPercentage(core: CpuCoreTimes): (r: real)
    ensures core.times.Total() == 0 ==> r == 0.0
    ensures core.times.Total() != 0 ==> r * core.times.Total() as real == core.times.Busy() as real * 100.0
  {
    Percent(core.times.Busy(), core.times.Total())
  }

  /** The findBusyCores filter: a core with ticks whose busy share
      reaches the threshold. */
  predicate IsBusyCore(core: CpuCoreTimes, threshold: real) {
    core.times.Total() != 0
    && Percent(core.times.Busy(), core.times.Total()) >= threshold
  }

  /** The idle share of a core's ticks; iowait does not count as idle. */
  function IdleShare(core: CpuCoreTimes): real {
    Percent(core.times.idle, core.times.Total())
  }

  /** The findIdleCores filter: a core with ticks whose idle share
      reaches the threshold. */
  predicate IsIdleCore(core: CpuCoreTimes, threshold: real) {
    core.times.Total() != 0 && IdleShare(core) >= threshold
  }

  /** `k` is the first position whose core carries index `coreIndex`. */
  predicate FirstWithIndex(cores: seq<CpuCoreTimes>, coreIndex: int, k: int) {
    0 <= k < |cores| && cores[k].coreIndex == coreIndex
    && forall j :: 0 <= j < k ==> cores[j].coreIndex != coreIndex
  }

  /** A machine-wide snapshot plus one entry per core. */
  datatype CpuSnapshot = CpuSnapshot(total: CpuTimes, perCore: seq<CpuCoreTimes>)
  {
    /** coreCount(): the number of per-core entries. */
    function CoreCount(): nat {
      |perCore|
    }

    /** The first core whose index equals `coreIndex`, or None. */
    function FindCore(coreIndex: int): (r: Option<CpuCoreTimes>)
      ensures r.None? <==> forall k :: 0 <= k < |perCore| ==> perCore[k].coreIndex != coreIndex
      ensures r.Some? ==> r.value.coreIndex == coreIndex
      ensures r.Some? ==> exists k :: 0 <= k < |perCore| && perCore[k] == r.value && FirstWithIndex(perCore, coreIndex, k)
    {
      Seqs.Find(perCore, (c: CpuCoreTimes) => c.coreIndex == coreIndex)
    }

    /** The cores, in their original order, that have ticks and are at
        least `threshold` percent busy. */
    function FindBusyCores(threshold: real): (r: seq<CpuCoreTimes>)
      ensures forall k :: 0 <= k < |r| ==> r[k] in perCore
      ensures forall k :: 0 <= k < |r| ==> r[k].times.Total() != 0 && BusyPercentage(r[k]) >= threshold
      ensures forall k :: 0 <= k < |perCore| ==>
                (perCore[k].times.Total() != 0 && BusyPercentage(perCore[k]) >= threshold ==> perCore[k] in r)
    {
      Seqs.Filter(perCore, (c: CpuCoreTimes) => IsBusyCore(c, threshold))
    }

    /** The cores, in their original order, that have ticks and are at
        least `threshold` percent idle. */
    function FindIdleCores(threshold: real): (r: seq<CpuCoreTimes>)
      ensures forall k :: 0 <= k < |r| ==> r[k] in perCore
      ensures forall k :: 0 <= k < |r| ==> r[k].times.Total() != 0 && IdleShare(r[k]) >= threshold
      ensures forall k :: 0 <= k < |perCore| ==>
                (perCore[k].times.Total() != 0 && IdleShare(perCore[k]) >= threshold ==> perCore[k] in r)
    {
      Seqs.Filter(perCore, (c: CpuCoreTimes) => IsIdleCore(c, threshold))
    }

    /** The first core with the highest busy percentage; None without cores. */
    method BusiestCore() returns (r: Option<CpuCoreTimes>)
      ensures r.None? <==> |perCore| == 0
      ensures r.Some? ==> exists k :: Seqs.IsFirstMax(perCore, BusyPercentage, k) && perCore[k] == r.value
    {
      if |perCore| == 0 {
        return None;
      }
      var k := Seqs.ArgFirstMax(perCore, BusyPercentage);
      return Some(perCore[k]);
    }

    /** The first core with the lowest busy percentage; None without cores. */
    method IdlestCore() returns (r: Option<CpuCoreTimes>)
      ensures r.None? <==> |perCore| == 0
      ensures r.Some? ==> exists k :: Seqs.IsFirstMin(perCore, BusyPercentage, k) && perCore[k] == r.value
    {
      if |perCore| == 0 {
        return None;
      }
      var k := Seqs.ArgFirstMin(perCore, BusyPercentage);
      return Some(perCore[k]);
    }
  }

  /** The filters keep input order: the busy cores of two concatenated
      core lists are the busy cores of the first followed by those of
      the second. */
  lemma FindBusyCoresAppend(total: CpuTimes, a: seq<CpuCoreTimes>, b: seq<CpuCoreTimes>, threshold: real)
    ensures CpuSnapshot(total, a + b).FindBusyCores(threshold)
      == CpuSnapshot(total, a).FindBusyCores(threshold) + CpuSnapshot(total, b).FindBusyCores(threshold)
  {
    Seqs.FilterAppend(a, b, (c: CpuCoreTimes) => IsBusyCore(c, threshold));
  }

  /** findIdleCores keeps input order and duplicates: the idle cores of
      two concatenated core lists are those of the first followed by
      those of the second, and a single core is kept exactly when it has
      ticks and reaches the idle threshold. */
  lemma FindIdleCoresInOrder(total: CpuTimes, a: seq<CpuCoreTimes>, b: seq<CpuCoreTimes>, c: CpuCoreTimes, threshold: real)
    ensures CpuSnapshot(total, a + b).FindIdleCores(threshold)
      == CpuSnapshot(total, a).FindIdleCores(threshold) + CpuSnapshot(total, b).FindIdleCores(threshold)
    ensures CpuSnapshot(total, [c]).FindIdleCores(threshold)
      == if c.times.Total() != 0 && IdleShare(c) >= threshold then [c] else []
  {
    Seqs.FilterAppend(a, b, (x: CpuCoreTimes) => IsIdleCore(x, threshold));
  }

  /** The first maximum is unique, so the busiest core is determined by
      the list and ties go to the earliest core. */
  lemma BusiestIsEarliestOnTie(perCore: seq<CpuCoreTimes>, k: int, j: int)
    requires Seqs.IsFirstMax(perCore, BusyPercentage, k)
    requires 0 <= j < |perCore| && BusyPercentage(perCore[j]) == BusyPercentage(perCore[k])
    ensures k <= j
  {
  }

  // ---------------------------------------------------------------
  // Deltas
  // ---------------------------------------------------------------

  /** The change of one core's counters over an interval. */
  datatype CpuCoreDelta = CpuCoreDelta(coreIndex: int, delta: CpuTimes)
  {
    function UsagePercentage(): (r: real)
      ensures delta.Total() == 0 ==> r == 0.0
      ensures delta.Total() != 0 ==> r * delta.Total() as real == delta.Busy() as real * 100.0
    {
      Percent(delta.Busy(), delta.Total())
    }

    function IdlePercentage(): (r: real)
      ensures delta.Total() == 0 ==> r == 0.0
      ensures delta.Total() != 0 ==> r * delta.Total() as real == delta.idle as real * 100.0
    {
      Percent(delta.idle, delta.Total())
    }

    function UserPercentage(): (r: real)
      ensures delta.Total() == 0 ==> r == 0.0
      ensures delta.Total() != 0 ==> r * delta.Total() as real == delta.user as real * 100.0
    {
      Percent(delta.user, delta.Total())
    }

    function SystemPercentage(): (r: real)
      ensures delta.Total() == 0 ==> r == 0.0
      ensures delta.Total() != 0 ==> r * delta.Total() as real == delta.system as real * 100.0
    {
      Percent(delta.system, delta.Total())
    }
  }

  /** With counters that did not go backwards, every share of a core
      delta lies in [0, 100]. */
  lemma CoreDeltaBounds(d: CpuCoreDelta)
    requires d.delta.NonNegative()
    ensures 0.0 <= d.UsagePercentage() <= 100.0
    ensures 0.0 <= d.IdlePercentage() <= 100.0
    ensures 0.0 <= d.UserPercentage() <= 100.0
    ensures 0.0 <= d.SystemPercentage() <= 100.0
  {
    var t := d.delta;
    PercentBounds(t.Busy(), t.Total());
    PercentBounds(t.idle, t.Total());
    PercentBounds(t.user, t.Total());
    PercentBounds(t.system, t.Total());
  }

  /** Usage and idle together reach 100 unless iowait took some of the
      interval. */
  lemma CoreUsagePlusIdle(d: CpuCoreDelta)
    requires d.delta.NonNegative()
    ensures d.UsagePercentage() + d.IdlePercentage() <= 100.0
    ensures d.delta.iowait == 0 && d.delta.Total() != 0 ==> d.UsagePercentage() + d.IdlePercentage() == 100.0
  {
    var t := d.delta;
    PercentAdd(t.Busy(), t.idle, t.Total());
    PercentBounds(t.Busy() + t.idle, t.Total());
  }

  /** User plus system time never exceeds the usage share. */
  lemma CoreUserSystemWithinUsage(d: CpuCoreDelta)
    requires d.delta.NonNegative()
    ensures d.UserPercentage() + d.SystemPercentage() <= d.UsagePercentage()
  {
    var t := d.delta;
    PercentAdd(t.user, t.system, t.Total());
    if t.Total() != 0 {
      PercentMonotone(t.user + t.system, t.Busy(), t.Total());
    }
  }

  /** `k` is the first position whose core delta carries index `coreIndex`. */
  predicate FirstDeltaWithIndex(cores: seq<CpuCoreDelta>, coreIndex: int, k: int) {
    0 <= k < |cores| && cores[k].coreIndex == coreIndex
    && forall j :: 0 <= j < k ==> cores[j].coreIndex != coreIndex
  }

  /** The score busiestCore and idlestCore compare. */
  function CoreUsage(d: CpuCoreDelta): real {
    d.UsagePercentage()
  }

  /** The machine-wide and per-core deltas over an interval of
      `durationSeconds` (the start and end timestamps carry no logic
      and are not part of the model). */
  datatype CpuDelta = CpuDelta(totalDelta: CpuTimes, perCoreDelta: seq<CpuCoreDelta>, durationSeconds: real)
  {
    /** The share every aggregate percentage computes: 0 for a zero-length
        interval or an interval without ticks. */
    function Share(part: int): (r: real)
      ensures durationSeconds == 0.0 || totalDelta.Total() == 0 ==> r == 0.0
      ensures durationSeconds != 0.0 && totalDelta.Total() != 0 ==>
        r * totalDelta.Total() as real == part as real * 100.0
    {
      if durationSeconds == 0.0 then 0.0 else Percent(part, totalDelta.Total())
    }

    function UsagePercentage(): real { Share(totalDelta.Busy()) }
    function UserPercentage(): real { Share(totalDelta.user) }
    function SystemPercentage(): real { Share(totalDelta.system) }
    function IdlePercentage(): real { Share(totalDelta.idle) }
    function IowaitPercentage(): real { Share(totalDelta.iowait) }

    /** Usage divided by the number of per-core deltas; 0 without any. */
    function NormalizedUsagePercentage(): (r: real)
      ensures |perCoreDelta| == 0 ==> r == 0.0
      ensures |perCoreDelta| != 0 ==> r * |perCoreDelta| as real == UsagePercentage()
    {
      if |perCoreDelta| == 0 then 0.0 else UsagePercentage() / |perCoreDelta| as real
    }

    /** The usage of the first core delta with index `coreIndex`, or None. */
    function CoreUsagePercentage(coreIndex: int): (r: Option<real>)
      ensures r.None? <==> forall k :: 0 <= k < |perCoreDelta| ==> perCoreDelta[k].coreIndex != coreIndex
      ensures r.Some? ==> exists k :: FirstDeltaWithIndex(perCoreDelta, coreIndex, k) && r.value == perCoreDelta[k].UsagePercentage()
    {
      match Seqs.FirstIndex(perCoreDelta, (c: CpuCoreDelta) => c.coreIndex == coreIndex)
      case None => None
      case Some(k) => Some(perCoreDelta[k].UsagePercentage())
    }

    /** The first core delta with the highest usage; None without any. */
    method BusiestCore() returns (r: Option<CpuCoreDelta>)
      ensures r.None? <==> |perCoreDelta| == 0
      ensures r.Some? ==> exists k :: Seqs.IsFirstMax(perCoreDelta, CoreUsage, k) && perCoreDelta[k] == r.value
    {
      if |perCoreDelta| == 0 {
        return None;
      }
      var k := Seqs.ArgFirstMax(perCoreDelta, CoreUsage);
      return Some(perCoreDelta[k]);
    }

    /** The first core delta with the lowest usage; None without any. */
    method IdlestCore() returns (r: Option<CpuCoreDelta>)
      ensures r.None? <==> |perCoreDelta| == 0
      ensures r.Some? ==> exists k :: Seqs.IsFirstMin(perCoreDelta, CoreUsage, k) && perCoreDelta[k] == r.value
    {
      if |perCoreDelta| == 0 {
        return None;
      }
      var k := Seqs.ArgFirstMin(perCoreDelta, CoreUsage);
      return Some(perCoreDelta[k]);
    }
  }

  /** Over an interval with ticks, usage, idle and iowait split the whole
      interval between them; and with counters that did not go backwards
      usage stays within [0, 100] (the formula cannot exceed 100). */
  lemma DeltaSharesSumTo100(d: CpuDelta)
    requires d.durationSeconds != 0.0 && d.totalDelta.Total() != 0
    ensures d.UsagePercentage() + d.IdlePercentage() + d.IowaitPercentage() == 100.0
  {
    var t := d.totalDelta;
    PercentAdd(t.Busy(), t.idle, t.Total());
    PercentAdd(t.Busy() + t.idle, t.iowait, t.Total());
    PercentWhole(t.Total());
  }

  lemma DeltaUsageBounds(d: CpuDelta)
    requires d.totalDelta.NonNegative()
    ensures 0.0 <= d.UsagePercentage() <= 100.0
    ensures 0.0 <= d.UserPercentage() + d.SystemPercentage() <= d.UsagePercentage()
  {
    var t := d.totalDelta;
    PercentBounds(t.Busy(), t.Total());
    PercentBounds(t.user, t.Total());
    PercentBounds(t.system, t.Total());
    PercentAdd(t.user, t.system, t.Total());
    if t.Total() != 0 {
      PercentMonotone(t.user + t.system, t.Busy(), t.Total());
    }
  }
}
