/**
 * The time source of time-stamped points (`TimeProvider.h`): epoch
 * milliseconds once the clock is set (later than 2020-01-01), and
 * `millis()` before that.  `time(nullptr)` and `millis()` are parameters.
 */
module TimeProvider {
  import opened Machine

  /** 2020-01-01T00:00:00Z in seconds since the epoch. */
  const SyncedAfter: int := 1577836800

  /** `time_is_synced()`: the clock reads later than 2020-01-01. */
  predicate TimeIsSynced(epochSeconds: int) {
    epochSeconds > SyncedAfter
  }

  /** `(uint64_t)x`: a value stored into a `uint64_t`, reduced modulo 2^64. */
  function Wrap64(x: int): (r: Nat64) {
    x % U64
  }

  /** `time_now_ms()`: epoch milliseconds when synced, `millis()` otherwise. */
  function TimeNowMs(epochSeconds: int, millis: Nat32): (r: Nat64)
    ensures !TimeIsSynced(epochSeconds) ==> r == millis
  {
    if TimeIsSynced(epochSeconds) then Wrap64(Wrap64(epochSeconds) * 1000) else millis
  }

  /**
   * A synced reading (up to the year 584 million, where the 64-bit product
   * would wrap) is the epoch in milliseconds, and lies above every
   * `millis()` reading, so the two kinds of timestamp never mix up.
   */
  lemma SyncedReadingIsEpochMs(epochSeconds: int, millis: Nat32, other: Nat32)
    requires TimeIsSynced(epochSeconds) && epochSeconds * 1000 < U64
    ensures TimeNowMs(epochSeconds, millis) == epochSeconds * 1000
    ensures TimeNowMs(epochSeconds, millis) / 1000 == epochSeconds
    ensures TimeNowMs(epochSeconds, millis) > other
  {
  }
}
