/** Working patterns (backend/internal/entity/hrm_organization.go): clock times without a date,
    in nanoseconds since midnight. */
module Shifts {
  import opened Numbers

  type Nanoseconds = int

  const MINUTE: Nanoseconds := 60_000_000_000
  const MINUTES_PER_DAY := 24 * 60
  const DAY: Nanoseconds := 24 * 60 * 60_000_000_000

  function MinutesOfDay(t: Nanoseconds): int { t / MINUTE }

  /** The bounds are those of the TIME and CHECK columns. */
  predicate ShiftColumns(startTime: Nanoseconds, endTime: Nanoseconds) {
    0 <= startTime < DAY && 0 <= endTime < DAY
  }

  /** weeklyOff holds weekday numbers, 0 for Sunday. */
  datatype Shift = Shift(
    startTime: Nanoseconds,
    endTime: Nanoseconds,
    breakMinutes: nat,
    graceMinutes: nat,
    weeklyOff: seq<int>)
  {
    predicate Stored() { ShiftColumns(startTime, endTime) }

    predicate CrossesMidnight() { endTime <= startTime }

    function StartMinutes(): int { MinutesOfDay(startTime) }

    /** The span from start to end less the unpaid break, floored at zero. */
    function ScheduledMinutes(): int {
      var span := MinutesOfDay(endTime) - MinutesOfDay(startTime);
      var forward := if span <= 0 then span + MINUTES_PER_DAY else span;
      if forward - breakMinutes < 0 then 0 else forward - breakMinutes
    }

    predicate IsWeeklyOff(weekday: int) { weekday in weeklyOff }
  }

  /** The two places that ask whether a shift ends on the next day - CrossesMidnight on the
      stored instants, ScheduledMinutes on whole minutes - disagree exactly when the shift
      ends later within the very minute it starts in. */
  lemma MidnightTestsAgreeIff(s: Shift)
    requires s.Stored()
    ensures (s.CrossesMidnight() <==> MinutesOfDay(s.endTime) - MinutesOfDay(s.startTime) <= 0)
            <==> !(s.startTime < s.endTime && MinutesOfDay(s.startTime) == MinutesOfDay(s.endTime))
  {
    if s.endTime <= s.startTime {
      assert MinutesOfDay(s.endTime) <= MinutesOfDay(s.startTime);
    }
  }

  /** On the clock face: minutes from start round to end, a full day when they coincide. */
  lemma ScheduledIsClockDistance(s: Shift)
    requires s.Stored()
    ensures s.ScheduledMinutes() ==
            Max(0, (MinutesOfDay(s.endTime) - MinutesOfDay(s.startTime) - 1) % MINUTES_PER_DAY + 1 - s.breakMinutes)
    ensures 0 <= s.ScheduledMinutes() <= MINUTES_PER_DAY
  {
    var start, end := MinutesOfDay(s.startTime), MinutesOfDay(s.endTime);
    assert 0 <= start < MINUTES_PER_DAY && 0 <= end < MINUTES_PER_DAY;
    if end - start <= 0 {
      assert (end - start - 1) % MINUTES_PER_DAY == end - start - 1 + MINUTES_PER_DAY;
    } else {
      assert (end - start - 1) % MINUTES_PER_DAY == end - start - 1;
    }
  }
}
