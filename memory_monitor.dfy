/**
 * Available physical memory, in whole megabytes.
 *
 * The memory status query is an input: `Some(bytes)` when it succeeds with
 * `bytes` of available physical memory, `None` when it fails.
 */
module MemoryMonitor {
  import opened Wrappers

  /** The range of an unsigned 64-bit integer. */
  type u64 = x: int | 0 <= x < 0x1_0000_0000_0000_0000

  /** Bytes in one megabyte as the watchdog counts them. */
  const BytesPerMb: nat := 1024 * 1024

  /** Two successive floor divisions by 1024 are one floor division by 1024 * 1024. */
  lemma DivideTwice(b: nat)
    ensures b / 1024 / 1024 == b / BytesPerMb
  {
  }

  /**
   * Converts the queried byte count to megabytes by dividing twice by 1024;
   * a failed query gives no value.
   */
  function AvailableMemoryMb(availableBytes: Option<u64>): (mb: Option<u64>)
    ensures mb.Some? <==> availableBytes.Some?
    ensures availableBytes.Some? ==>
      mb.value * BytesPerMb <= availableBytes.value < (mb.value + 1) * BytesPerMb
    ensures availableBytes.Some? ==> mb.value <= availableBytes.value
  {
    match availableBytes
    case None => None
    case Some(b) =>
      DivideTwice(b);
      Some(b / 1024 / 1024)
  }

  /** More available bytes never give fewer megabytes. */
  lemma AvailableMemoryMbMonotonic(b1: u64, b2: u64)
    requires b1 <= b2
    ensures AvailableMemoryMb(Some(b1)).value <= AvailableMemoryMb(Some(b2)).value
  {
  }
}
