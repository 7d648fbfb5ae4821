/** Calendar instants as the date library keeps them: nanoseconds, within a
    first and a last representable one. */
module Clock {
  import opened Common

  const I64_MAX: nat := 0x7FFF_FFFF_FFFF_FFFF
  const FIRST_INSTANT: int := -377_705_116_800_000_000_000
  const LAST_INSTANT: int := 253_402_300_799_999_999_999

  /** Whole seconds as nanoseconds. */
  function Nanos(seconds: int): int { 1_000_000_000 * seconds }

  predicate OnCalendar(t: Instant) { FIRST_INSTANT <= t <= LAST_INSTANT }

  /** `OffsetDateTime::checked_add` of whole seconds. */
  function CheckedLater(t: Instant, seconds: int): Option<Instant> {
    if OnCalendar(t + Nanos(seconds)) then Some(t + Nanos(seconds)) else None
  }
}
