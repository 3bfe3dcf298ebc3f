/** Instants as whole seconds. A `DateTime` is a UTC instant, a `NaiveDateTime`
    a zone-less local wall-clock reading; both count seconds from
    1970-01-01 00:00:00 of their own clock. */
module Time {

  /** chrono's `DateTime<Utc>`. */
  type DateTime = int

  /** chrono's `NaiveDateTime`. */
  type NaiveDateTime = int

  /** Rust's `i32`. */
  type i32 = x: int | -0x8000_0000 <= x < 0x8000_0000

  /** chrono's `FixedOffset`: seconds east of UTC, strictly inside one day
      (`FixedOffset::east` panics outside that range). */
  type FixedOffset = x: int | -86400 < x < 86400

  const SECONDS_PER_DAY := 86400

  /** `FixedOffset::east(secs)`; the range check is the caller's obligation. */
  function East(secs: i32): (o: FixedOffset)
    requires -SECONDS_PER_DAY < secs < SECONDS_PER_DAY
    ensures o as int == secs as int
  {
    secs
  }

  /** `offset.from_local_datetime(&local).unwrap().with_timezone(&Utc)`: a fixed
      offset has exactly one UTC instant per local reading, `offset` seconds
      earlier than the local clock shows. */
  function ToUtc(local: NaiveDateTime, offset: FixedOffset): (r: DateTime)
    ensures r + offset == local
  {
    local - offset
  }

  /** Days from 1970-01-01 to the proleptic Gregorian date y-m-d. */
  function DaysFromCivil(y: int, m: int, d: int): int
    requires 1 <= m <= 12 && 1 <= d <= 31
  {
    var y' := if m <= 2 then y - 1 else y;
    var era := y' / 400;
    var yoe := y' - era * 400;
    var mp := if m > 2 then m - 3 else m + 9;
    var doy := (153 * mp + 2) / 5 + d - 1;
    var doe := yoe * 365 + yoe / 4 - yoe / 100 + doy;
    era * 146097 + doe - 719468
  }

  /** The reading "y-m-d hh:mm:ss" of a clock, in seconds. */
  function Civil(y: int, m: int, d: int, hh: int, mm: int, ss: int): int
    requires 1 <= m <= 12 && 1 <= d <= 31
    requires 0 <= hh < 24 && 0 <= mm < 60 && 0 <= ss < 60
  {
    DaysFromCivil(y, m, d) * SECONDS_PER_DAY + hh * 3600 + mm * 60 + ss
  }

  /** The clock starts at 1970-01-01 00:00:00. This only documents how
      instants are encoded as integers; no other statement depends on it. */
  lemma EpochIsZero()
    ensures Civil(1970, 1, 1, 0, 0, 0) == 0
  {
  }

  /** Worked example: 2024-01-01 10:00:00 read five hours west of UTC is
      2024-01-01 15:00:00 UTC. */
  lemma FiveHoursWestExample()
    ensures ToUtc(Civil(2024, 1, 1, 10, 0, 0), -18000) == Civil(2024, 1, 1, 15, 0, 0)
  {
  }

  /** Under one offset, a later local reading is a later instant, and the
      conversion loses nothing: equal instants come from equal readings. */
  lemma ToUtcStrictlyMonotone(a: NaiveDateTime, b: NaiveDateTime, offset: FixedOffset)
    ensures a < b <==> ToUtc(a, offset) < ToUtc(b, offset)
    ensures ToUtc(a, offset) == ToUtc(b, offset) ==> a == b
  {
  }

  /** One local reading under two offsets: the instants differ by exactly the
      difference of the offsets. */
  lemma ToUtcOffsetShift(local: NaiveDateTime, o1: FixedOffset, o2: FixedOffset)
    ensures ToUtc(local, o1) - ToUtc(local, o2) == o2 - o1
  {
  }
}
