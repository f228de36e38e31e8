/** The 1-, 5- and 15-minute load averages, and the same values divided
    by the number of cores. */
module LoadAverage {
  import Cpu
  import PhpText

  /** Load averages divided by the core count, with that count recorded. */
  datatype NormalizedLoadAverage = NormalizedLoadAverage(
    oneMinute: real, fiveMinutes: real, fifteenMinutes: real, coreCount: int)
  {
    /** The 1-minute value as a percentage of full capacity. */
    function OneMinutePercentage(): (r: real)
      ensures r / 100.0 == oneMinute
      ensures oneMinute == 1.0 <==> r == 100.0
      ensures oneMinute > 1.0 <==> r > 100.0
    {
      oneMinute * 100.0
    }

    /** The 5-minute value as a percentage of full capacity. */
    function FiveMinutesPercentage(): (r: real)
      ensures r / 100.0 == fiveMinutes
      ensures fiveMinutes == 1.0 <==> r == 100.0
      ensures fiveMinutes > 1.0 <==> r > 100.0
    {
      fiveMinutes * 100.0
    }

    /** The 15-minute value as a percentage of full capacity. */
    function FifteenMinutesPercentage(): (r: real)
      ensures r / 100.0 == fifteenMinutes
      ensures fifteenMinutes == 1.0 <==> r == 100.0
      ensures fifteenMinutes > 1.0 <==> r > 100.0
    {
      fifteenMinutes * 100.0
    }
  }

  datatype LoadAverageSnapshot = LoadAverageSnapshot(oneMinute: real, fiveMinutes: real, fifteenMinutes: real)
  {
    /** Each window divided by the number of cores of `cpu`; all zeros
        (and a recorded count of 0) when the snapshot lists no cores. */
    function Normalized(cpu: Cpu.CpuSnapshot): (r: NormalizedLoadAverage)
      ensures r.coreCount == |cpu.perCore|
      ensures |cpu.perCore| == 0 ==> r.oneMinute == 0.0 && r.fiveMinutes == 0.0 && r.fifteenMinutes == 0.0
      ensures |cpu.perCore| != 0 ==>
                r.oneMinute * r.coreCount as real == oneMinute
                && r.fiveMinutes * r.coreCount as real == fiveMinutes
                && r.fifteenMinutes * r.coreCount as real == fifteenMinutes
    {
      var n := cpu.CoreCount();
      if n == 0 then NormalizedLoadAverage(0.0, 0.0, 0.0, 0)
      else NormalizedLoadAverage(oneMinute / n as real, fiveMinutes / n as real, fifteenMinutes / n as real, n)
    }
  }

  /** The snapshot both load-average parsers build from the first three
      fields of their input, each read by the (float) cast. */
  function SnapshotOfFields(fields: seq<string>): LoadAverageSnapshot
    requires |fields| >= 3
  {
    LoadAverageSnapshot(PhpText.FloatCast(fields[0]), PhpText.FloatCast(fields[1]), PhpText.FloatCast(fields[2]))
  }

  /** Only the number of cores matters, not any tick counter. */
  lemma NormalizedDependsOnlyOnCoreCount(l: LoadAverageSnapshot, a: Cpu.CpuSnapshot, b: Cpu.CpuSnapshot)
    requires |a.perCore| == |b.perCore|
    ensures l.Normalized(a) == l.Normalized(b)
  {
  }

  /** A load equal to the core count is exactly full capacity (1.0, or
      100 percent); twice the core count is 2.0. */
  lemma NormalizedFullCapacity(cpu: Cpu.CpuSnapshot, k: real)
    requires |cpu.perCore| > 0
    ensures var n := |cpu.perCore| as real;
      var r := LoadAverageSnapshot(k * n, n, 2.0 * n).Normalized(cpu);
      r.oneMinute == k && r.fiveMinutes == 1.0 && r.fifteenMinutes == 2.0
      && r.FiveMinutesPercentage() == 100.0
  {
    var n := |cpu.perCore| as real;
    var r := LoadAverageSnapshot(k * n, n, 2.0 * n).Normalized(cpu);
    assert r.oneMinute * n == k * n;
    assert r.fiveMinutes * n == 1.0 * n;
    assert r.fifteenMinutes * n == 2.0 * n;
  }
}
