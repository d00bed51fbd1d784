/** Instants as integer milliseconds since 1970-01-01T00:00Z, read in UTC.
    The date-fns and `Date` calls of the scheduler (`isSameHour`, `getDay`,
    `getHours`, `setDay`, `setHours`, `setMinutes`, `setSeconds`,
    `setMilliseconds`, `addHours`) become the arithmetic below. */
module Clock {

  const MS_PER_SECOND: int := 1000
  const MS_PER_MINUTE: int := 60000
  const MS_PER_HOUR: int := 3600000
  const MS_PER_DAY: int := 86400000

  /** The clock hour an instant falls in; `isSameHour(a, b)` is equality of these. */
  function HourBucket(t: int): int
  {
    t / MS_PER_HOUR
  }

  /** Days since the epoch, rounded down. */
  function DayNumber(t: int): int
  {
    t / MS_PER_DAY
  }

  /** `getDay()`: Sunday is 0, Monday 1, ..., Saturday 6 (1970-01-01 was a Thursday). */
  function Weekday(t: int): (d: int)
    ensures 0 <= d < 7
  {
    (DayNumber(t) + 4) % 7
  }

  /** `getHours()`. */
  function HourOfDay(t: int): (h: int)
    ensures 0 <= h < 24
  {
    (t % MS_PER_DAY) / MS_PER_HOUR
  }

  /** `getMinutes()`. */
  function MinuteOfHour(t: int): (m: int)
    ensures 0 <= m < 60
  {
    (t % MS_PER_HOUR) / MS_PER_MINUTE
  }

  /** `getSeconds()`. */
  function SecondOfMinute(t: int): (s: int)
    ensures 0 <= s < 60
  {
    (t % MS_PER_MINUTE) / MS_PER_SECOND
  }

  /** `getMilliseconds()`. */
  function MillisecondOfSecond(t: int): (ms: int)
    ensures 0 <= ms < 1000
  {
    t % MS_PER_SECOND
  }

  /** Position of a `getDay()` value in a week that starts on Monday. */
  function MondayIndex(weekday: int): int
  {
    (weekday + 6) % 7
  }

  /** The Monday-start week an instant belongs to: day number -3 (1969-12-29)
      was a Monday, so week 0 runs from day -3 to day 3. */
  function WeekNumber(t: int): int
  {
    (DayNumber(t) + 3) / 7
  }

  /** date-fns `setDay(t, day, { weekStartsOn: 1 })`: move by whole days to
      `day` within the Monday-start week of `t`; a `day` outside 0..6 counts
      from that week's Monday. */
  function SetDay(t: int, day: int): int
  {
    var delta := 6;
    var dayIndex := (day % 7 + 7) % 7;
    var currentDay := Weekday(t);
    var diff := if day < 0 || day > 6 then day - (currentDay + delta) % 7
                else (dayIndex + delta) % 7 - (currentDay + delta) % 7;
    t + diff * MS_PER_DAY
  }

  /** `setHours(t, h)`: same day, minutes and below; an hour outside 0..23 rolls
      over into neighbouring days as `Date` does. */
  function SetHours(t: int, h: int): int
  {
    t + (h - HourOfDay(t)) * MS_PER_HOUR
  }

  function SetMinutes(t: int, m: int): int
  {
    t + (m - MinuteOfHour(t)) * MS_PER_MINUTE
  }

  function SetSeconds(t: int, s: int): int
  {
    t + (s - SecondOfMinute(t)) * MS_PER_SECOND
  }

  function SetMilliseconds(t: int, ms: int): int
  {
    t + (ms - MillisecondOfSecond(t))
  }

  function AddHours(t: int, n: int): int
  {
    t + n * MS_PER_HOUR
  }

  /** Start of the hour `hour` on weekday `day` (Sunday 0) of the Monday-start
      week `week`. */
  function SlotStart(week: int, day: int, hour: int): int
  {
    (7 * week - 3 + MondayIndex(day)) * MS_PER_DAY + hour * MS_PER_HOUR
  }

  /** Quotient and remainder are the only pair that rebuilds the dividend. */
  lemma DivModUnique(x: int, m: int, q: int, r: int)
    requires m > 0 && 0 <= r < m && x == q * m + r
    ensures x / m == q && x % m == r
  {
    var q', r' := x / m, x % m;
    assert x == q' * m + r' && 0 <= r' < m;
    assert (q - q') * m == r' - r;
    if q > q' {
      MulAtLeast(q - q', m);
    } else if q < q' {
      MulAtLeast(q' - q, m);
    }
  }

  lemma {:induction false} MulAtLeast(a: int, m: int)
    requires a >= 1 && m > 0
    ensures a * m >= m
  {
    if a > 1 {
      MulAtLeast(a - 1, m);
      assert a * m == (a - 1) * m + m;
    }
  }

  /** Everything `onDragEnd` does to a start time: `setDay` within the week,
      `setHours`, then minutes, seconds and milliseconds to 0. */
  lemma {:induction false} DropArithmetic(t: int, day: int, hour: int)
    requires 0 <= day < 7
    ensures SetMilliseconds(SetSeconds(SetMinutes(SetHours(SetDay(t, day), hour), 0), 0), 0)
            == SlotStart(WeekNumber(t), day, hour)
  {
    var D, r := DayNumber(t), t % MS_PER_DAY;
    assert t == D * MS_PER_DAY + r;
    var W := WeekNumber(t);
    assert MondayIndex(Weekday(t)) == (D + 3) % 7;
    var D1 := 7 * W - 3 + MondayIndex(day);
    var t1 := SetDay(t, day);
    assert t1 == D1 * MS_PER_DAY + r;
    DivModUnique(t1, MS_PER_DAY, D1, r);
    var hr := r / MS_PER_HOUR;
    var below := r % MS_PER_HOUR;
    assert r == hr * MS_PER_HOUR + below;
    var t2 := SetHours(t1, hour);
    assert HourOfDay(t1) == hr;
    assert t2 == (24 * D1 + hour) * MS_PER_HOUR + below;
    DivModUnique(t2, MS_PER_HOUR, 24 * D1 + hour, below);
    var mins := below / MS_PER_MINUTE;
    var belowMin := below % MS_PER_MINUTE;
    var t3 := SetMinutes(t2, 0);
    assert t3 == (24 * D1 + hour) * MS_PER_HOUR + belowMin;
    DivModUnique(t3, MS_PER_MINUTE, (24 * D1 + hour) * 60, belowMin);
    var secs := belowMin / MS_PER_SECOND;
    var belowSec := belowMin % MS_PER_SECOND;
    var t4 := SetSeconds(t3, 0);
    assert t4 == (24 * D1 + hour) * MS_PER_HOUR + belowSec;
    DivModUnique(t4, MS_PER_SECOND, (24 * D1 + hour) * 3600, belowSec);
    var t5 := SetMilliseconds(t4, 0);
    assert t5 == (24 * D1 + hour) * MS_PER_HOUR;
  }

  /** A slot start in hours 0..23 reads back as its week, weekday and hour,
      on the hour. */
  lemma {:induction false} SlotStartFields(week: int, day: int, hour: int)
    requires 0 <= day < 7 && 0 <= hour < 24
    ensures var t := SlotStart(week, day, hour);
      && WeekNumber(t) == week
      && Weekday(t) == day
      && HourOfDay(t) == hour
      && MinuteOfHour(t) == 0 && SecondOfMinute(t) == 0 && MillisecondOfSecond(t) == 0
      && t % MS_PER_HOUR == 0
  {
    var D := 7 * week - 3 + MondayIndex(day);
    var t := SlotStart(week, day, hour);
    DivModUnique(t, MS_PER_DAY, D, hour * MS_PER_HOUR);
    DivModUnique(D + 3, 7, week, MondayIndex(day));
    DivModUnique(t, MS_PER_HOUR, 24 * D + hour, 0);
    DivModUnique(t, MS_PER_MINUTE, (24 * D + hour) * 60, 0);
    DivModUnique(t, MS_PER_SECOND, (24 * D + hour) * 3600, 0);
    DivModUnique(hour * MS_PER_HOUR, MS_PER_HOUR, hour, 0);
    if day == 0 {
      DivModUnique(D + 4, 7, week + 1, 0);
    } else {
      DivModUnique(D + 4, 7, week, day);
    }
  }
}
