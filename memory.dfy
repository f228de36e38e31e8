/** Physical memory and swap in bytes, with the percentages derived from them. */
module Memory {
  import opened Ratio

  datatype MemorySnapshot = MemorySnapshot(
    totalBytes: int, freeBytes: int, availableBytes: int, usedBytes: int,
    buffersBytes: int, cachedBytes: int,
    swapTotalBytes: int, swapFreeBytes: int, swapUsedBytes: int)
  {
    /** Used memory as a share of total memory; 0 when the total is 0. */
    function UsedPercentage(): (r: real)
      ensures totalBytes == 0 ==> r == 0.0
      ensures totalBytes != 0 ==> r * totalBytes as real == usedBytes as real * 100.0
    {
      Percent(usedBytes, totalBytes)
    }

    /** Available memory as a share of total memory; 0 when the total is 0. */
    function AvailablePercentage(): (r: real)
      ensures totalBytes == 0 ==> r == 0.0
      ensures totalBytes != 0 ==> r * totalBytes as real == availableBytes as real * 100.0
    {
      Percent(availableBytes, totalBytes)
    }

    /** Used swap as a share of total swap, guarded by the swap total
        rather than the memory total. */
    function SwapUsedPercentage(): (r: real)
      ensures swapTotalBytes == 0 ==> r == 0.0
      ensures swapTotalBytes != 0 ==> r * swapTotalBytes as real == swapUsedBytes as real * 100.0
    {
      Percent(swapUsedBytes, swapTotalBytes)
    }
  }

  /** Consistent byte counts give shares within [0, 100], and memory that
      is all used is exactly 100 percent used. */
  lemma MemoryPercentageBounds(m: MemorySnapshot)
    requires 0 <= m.usedBytes <= m.totalBytes
    requires 0 <= m.availableBytes <= m.totalBytes
    requires 0 <= m.swapUsedBytes <= m.swapTotalBytes
    ensures 0.0 <= m.UsedPercentage() <= 100.0
    ensures 0.0 <= m.AvailablePercentage() <= 100.0
    ensures 0.0 <= m.SwapUsedPercentage() <= 100.0
    ensures m.totalBytes > 0 ==> (m.UsedPercentage() == 100.0 <==> m.usedBytes == m.totalBytes)
  {
    PercentBounds(m.usedBytes, m.totalBytes);
    PercentBounds(m.availableBytes, m.totalBytes);
    PercentBounds(m.swapUsedBytes, m.swapTotalBytes);
  }
}
