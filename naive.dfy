/**
 * Stand-ins for the calendar-naive engine (`NaiveDate`, `NaiveTime`,
 * `NaiveDateTime`, `Duration`), which the zone layer consumes but does not
 * define. Dates are day numbers, durations whole seconds, and every
 * calendar-field rule (month lengths, leap years, ISO weeks, leap seconds)
 * is a parameter: the `Calendar` record below.
 */
module Naive {
  import opened Wrappers

  const SecsPerDay: int := 86400

  /** Day number of -262144-01-01, the earliest representable date (0001-01-01 is day 1). */
  const MinDay: int := -95746495
  /** Day number of +262143-12-31, the latest representable date. */
  const MaxDay: int := 95745764

  type NaiveDate = d: int | MinDay <= d <= MaxDay

  /** A signed duration, in whole seconds. */
  type Duration = int

  type i32 = x: int | -0x8000_0000 <= x < 0x8000_0000
  type u32 = x: int | 0 <= x < 0x1_0000_0000

  datatype Weekday = Mon | Tue | Wed | Thu | Fri | Sat | Sun

  /** Second of the day and its fraction in nanoseconds; a fraction of
      1e9 or more marks a leap second. */
  datatype TimeOfDay = TimeOfDay(secs: int, frac: int)
  type NaiveTime = t: TimeOfDay | 0 <= t.secs < SecsPerDay && 0 <= t.frac < 2_000_000_000
    witness TimeOfDay(0, 0)

  datatype NaiveDateTime = NaiveDateTime(date: NaiveDate, time: NaiveTime)

  /** The field-level part of the naive engine: validation of calendar and
      clock fields, field mutation of a date, and the debug renderings. */
  datatype Calendar = Calendar(
    fromYmd: (i32, u32, u32) -> Option<NaiveDate>,
    fromYo: (i32, u32) -> Option<NaiveDate>,
    fromIsoYwd: (i32, u32, Weekday) -> Option<NaiveDate>,
    fromHms: (u32, u32, u32) -> Option<NaiveTime>,
    fromHmsMilli: (u32, u32, u32, u32) -> Option<NaiveTime>,
    fromHmsMicro: (u32, u32, u32, u32) -> Option<NaiveTime>,
    fromHmsNano: (u32, u32, u32, u32) -> Option<NaiveTime>,
    withYear: (NaiveDate, i32) -> Option<NaiveDate>,
    withMonth: (NaiveDate, u32) -> Option<NaiveDate>,
    withMonth0: (NaiveDate, u32) -> Option<NaiveDate>,
    withDay: (NaiveDate, u32) -> Option<NaiveDate>,
    withDay0: (NaiveDate, u32) -> Option<NaiveDate>,
    withOrdinal: (NaiveDate, u32) -> Option<NaiveDate>,
    withOrdinal0: (NaiveDate, u32) -> Option<NaiveDate>,
    showDate: NaiveDate -> string,
    showDateTime: NaiveDateTime -> string)

  /** The whole days of a duration, truncated toward zero: what a date
      moves by when a duration is added to it. */
  function WholeDays(dur: Duration): (n: int)
    ensures 0 <= dur ==> 0 <= n * SecsPerDay <= dur < (n + 1) * SecsPerDay
    ensures dur < 0 ==> (n - 1) * SecsPerDay < dur <= n * SecsPerDay <= 0
  {
    if dur >= 0 then dur / SecsPerDay else -((-dur) / SecsPerDay)
  }

  lemma WholeDaysNegate(dur: Duration)
    ensures WholeDays(-dur) == -WholeDays(dur)
  {
  }

  lemma WholeDaysOfDays(k: int)
    ensures WholeDays(k * SecsPerDay) == k
  {
  }

  /** Adding `dur` to day `d` stays within the representable dates. */
  predicate CanShift(d: int, dur: Duration)
  {
    MinDay <= d + WholeDays(dur) <= MaxDay
  }

  /** `NaiveDate + Duration`; overflowing the date range is a panic. */
  function AddDuration(d: NaiveDate, dur: Duration): (r: NaiveDate)
    requires CanShift(d, dur)
    ensures r - d == WholeDays(dur)
  {
    d + WholeDays(dur)
  }

  /** `NaiveDate - Duration`; overflowing the date range is a panic. */
  function SubDuration(d: NaiveDate, dur: Duration): (r: NaiveDate)
    requires CanShift(d, -dur)
    ensures d - r == WholeDays(dur)
  {
    WholeDaysNegate(dur);
    d - WholeDays(dur)
  }

  /** `NaiveDate - NaiveDate`: whole days, as a duration. */
  function DateDiff(a: NaiveDate, b: NaiveDate): (r: Duration)
    ensures WholeDays(r) == a - b && r % SecsPerDay == 0
  {
    WholeDaysOfDays(a - b);
    (a - b) * SecsPerDay
  }

  function SuccOpt(d: NaiveDate): (r: Option<NaiveDate>)
    ensures r.None? <==> d == MaxDay
    ensures r.Some? ==> r.value == d + 1
  {
    if d < MaxDay then Some(d + 1) else None
  }

  function PredOpt(d: NaiveDate): (r: Option<NaiveDate>)
    ensures r.None? <==> d == MinDay
    ensures r.Some? ==> r.value == d - 1
  {
    if d > MinDay then Some(d - 1) else None
  }

  /** `NaiveTime + Duration` wraps around midnight; the fraction is kept. */
  function TimeAddDuration(t: NaiveTime, dur: Duration): (r: NaiveTime)
    ensures r.frac == t.frac
    ensures (t.secs + dur - r.secs) % SecsPerDay == 0
  {
    TimeOfDay((t.secs + dur) % SecsPerDay, t.frac)
  }

  /** `NaiveTime - Duration` wraps around midnight; the fraction is kept. */
  function TimeSubDuration(t: NaiveTime, dur: Duration): (r: NaiveTime)
    ensures r.frac == t.frac
    ensures (t.secs - dur - r.secs) % SecsPerDay == 0
  {
    TimeAddDuration(t, -dur)
  }

  lemma ModOfDecomposition(x: int, q: int, s: int)
    requires 0 <= s < SecsPerDay && x == q * SecsPerDay + s
    ensures x % SecsPerDay == s && x / SecsPerDay == q
  {
  }

  lemma TimeSubAdd(t: NaiveTime, dur: Duration)
    ensures TimeAddDuration(TimeSubDuration(t, dur), dur) == t
  {
    var x := t.secs - dur;
    ModOfDecomposition(x, x / SecsPerDay, x % SecsPerDay);
    var y := x % SecsPerDay + dur;
    ModOfDecomposition(y, -(x / SecsPerDay), t.secs);
  }

  lemma TimeAddSub(t: NaiveTime, dur: Duration)
    ensures TimeSubDuration(TimeAddDuration(t, dur), dur) == t
  {
    TimeSubAdd(t, -dur);
  }

  /** Seconds since the start of day 0, ignoring the fraction. */
  function Seconds(dt: NaiveDateTime): int
  {
    dt.date * SecsPerDay + dt.time.secs
  }

  /** Adding `dur` to `dt` stays within the representable dates. */
  predicate DateTimeCanShift(dt: NaiveDateTime, dur: Duration)
  {
    MinDay <= (Seconds(dt) + dur) / SecsPerDay <= MaxDay
  }

  /** `NaiveDateTime + Duration`; overflowing the date range is a panic. */
  function DateTimeAddDuration(dt: NaiveDateTime, dur: Duration): (r: NaiveDateTime)
    requires DateTimeCanShift(dt, dur)
    ensures Seconds(r) == Seconds(dt) + dur && r.time.frac == dt.time.frac
  {
    var x := Seconds(dt) + dur;
    ModOfDecomposition(x, x / SecsPerDay, x % SecsPerDay);
    NaiveDateTime(x / SecsPerDay, TimeOfDay(x % SecsPerDay, dt.time.frac))
  }

  /** `NaiveDateTime - Duration`; overflowing the date range is a panic. */
  function DateTimeSubDuration(dt: NaiveDateTime, dur: Duration): (r: NaiveDateTime)
    requires DateTimeCanShift(dt, -dur)
    ensures Seconds(r) == Seconds(dt) - dur && r.time.frac == dt.time.frac
  {
    DateTimeAddDuration(dt, -dur)
  }

  /** Two date-times with the same seconds and fraction are the same value. */
  lemma SecondsDetermine(a: NaiveDateTime, b: NaiveDateTime)
    requires Seconds(a) == Seconds(b) && a.time.frac == b.time.frac
    ensures a == b
  {
    ModOfDecomposition(Seconds(a), a.date, a.time.secs);
    ModOfDecomposition(Seconds(b), b.date, b.time.secs);
  }

  lemma DateTimeSubAdd(dt: NaiveDateTime, dur: Duration)
    requires DateTimeCanShift(dt, -dur)
    ensures DateTimeCanShift(DateTimeSubDuration(dt, dur), dur)
    ensures DateTimeAddDuration(DateTimeSubDuration(dt, dur), dur) == dt
  {
    var back := DateTimeSubDuration(dt, dur);
    ModOfDecomposition(Seconds(dt), dt.date, dt.time.secs);
    SecondsDetermine(DateTimeAddDuration(back, dur), dt);
  }

  lemma DateTimeAddSub(dt: NaiveDateTime, dur: Duration)
    requires DateTimeCanShift(dt, dur)
    ensures DateTimeCanShift(DateTimeAddDuration(dt, dur), -dur)
    ensures DateTimeSubDuration(DateTimeAddDuration(dt, dur), dur) == dt
  {
    DateTimeSubAdd(dt, -dur);
  }
}
