/**
 * Two concrete zone backends. `Utc1y` is UTC moved forward by 365 days,
 * as in the date tests: every resolution is unique. `Toy` clocks move
 * forward by a whole day at UTC day `gap` and back at UTC day `fold`,
 * which makes local day `gap` a gap and local day `fold` a fold.
 */
module Zones {
  import opened Wrappers
  import opened Naive
  import opened LocalResults
  import opened Backends
  import opened Zoned
  import opened Offsets
  import opened Dates

  // ----- UTC shifted by one year -----

  datatype Utc1y = Utc1y
  datatype OneYear = OneYear

  const OneYearSkew: Duration := 365 * SecsPerDay

  const UTC1Y: Backend<Utc1y, OneYear> := Backend(
    (_: OneYear) => Utc1y,
    (_: OneYear) => OneYearSkew,
    (_: OneYear) => "+8760:00",
    (_: Utc1y, _: NaiveDate) => Single(OneYear),
    (_: Utc1y, _: NaiveTime) => Single(OneYear),
    (_: Utc1y, _: NaiveDateTime) => Single(OneYear),
    (_: Utc1y, _: NaiveDate) => OneYear,
    (_: Utc1y, _: NaiveTime) => OneYear,
    (_: Utc1y, _: NaiveDateTime) => OneYear)

  lemma Utc1yIsConsistent()
    ensures ConsistentDates(UTC1Y, Utc1y) && RebuildsFromStates(UTC1Y, Utc1y)
  {
    forall u: NaiveDate ensures UtcDateRoundTrips(UTC1Y, Utc1y, u) {
      WholeDaysOfDays(365);
    }
    forall l: NaiveDate ensures LocalDateRoundTrips(UTC1Y, Utc1y, l) {
      WholeDaysOfDays(365);
      WholeDaysNegate(OneYearSkew);
    }
  }

  /** The date test: under `Utc1y`, the local date that the calendar
      engine makes of (year, month, day) is kept, the stored UTC date is
      365 days earlier, the debug text is the date's followed by "+8760:00",
      and joining the time of (5, 6, 7) keeps both the local date and that
      time. The tests run this for 2012-02-29 and 2012-03-04. */
  lemma WeirdOffset(cal: Calendar, year: i32, month: u32, day: u32, local: NaiveDate, time: NaiveTime)
    requires cal.fromYmd(year, month, day) == Some(local) && cal.fromHms(5, 6, 7) == Some(time)
    requires MinDay + 365 <= local
    ensures ParsedDateResolvable(UTC1Y, Utc1y, cal.fromYmd(year, month, day))
    ensures YmdOpt(cal, UTC1Y, Utc1y, year, month, day).Single?
    ensures NaiveUtc(Ymd(cal, UTC1Y, Utc1y, year, month, day)) == local - 365
    ensures HasLocalDate(UTC1Y, Ymd(cal, UTC1Y, Utc1y, year, month, day))
    ensures Debug(cal, UTC1Y, Ymd(cal, UTC1Y, Utc1y, year, month, day)) == cal.showDate(local) + "+8760:00"
    ensures CanCombine(UTC1Y, Ymd(cal, UTC1Y, Utc1y, year, month, day), cal.fromHms(5, 6, 7))
    ensures AndHmsOpt(cal, UTC1Y, Ymd(cal, UTC1Y, Utc1y, year, month, day), 5, 6, 7).Some?
    ensures DateTimeNaiveLocal(UTC1Y, AndHms(cal, UTC1Y, Ymd(cal, UTC1Y, Utc1y, year, month, day), 5, 6, 7))
      == NaiveDateTime(local, time)
    ensures DebugDateTime(cal, UTC1Y, AndHms(cal, UTC1Y, Ymd(cal, UTC1Y, Utc1y, year, month, day), 5, 6, 7))
      == cal.showDateTime(NaiveDateTime(local, time)) + "+8760:00"
  {
    WholeDaysOfDays(365);
    WholeDaysNegate(OneYearSkew);
    WholeDaysOfDays(-365);
    var d := Ymd(cal, UTC1Y, Utc1y, year, month, day);
    var ldt := NaiveDateTime(local, time);
    assert Seconds(ldt) - OneYearSkew == (local - 365) * SecsPerDay + time.secs;
    ModOfDecomposition(Seconds(ldt) - OneYearSkew, local - 365, time.secs);
    assert DateTimeCanShift(ldt, -OneYearSkew);
  }

  /** In the one-year zone every resolution is the single state, so
      `and_time` always keeps the date's offset. */
  lemma Utc1yAndTimeKeepsOffset(d: Date<OneYear>, time: NaiveTime)
    requires CanCombine(UTC1Y, d, Some(time))
    ensures AndTime(UTC1Y, d, time).Some? && AndTime(UTC1Y, d, time).value.offset == d.offset
  {
    AndTimeKeepsOffset(UTC1Y, d, time);
  }

  // ----- a zone with one gap day and one fold day -----

  datatype ToyRule = ToyRule(gap: NaiveDate, fold: NaiveDate)
  type ToyZone = z: ToyRule | z.gap < z.fold witness ToyRule(0, 1)

  /** `dst` holds between the two transitions, when clocks run a day ahead. */
  datatype ToyState = ToyState(zone: ToyZone, dst: bool)

  function ToySkew(s: ToyState): Duration
  {
    if s.dst then SecsPerDay else 0
  }

  function ToyUtcDate(z: ToyZone, utc: NaiveDate): ToyState
  {
    ToyState(z, z.gap <= utc < z.fold)
  }

  function ToyLocalDate(z: ToyZone, local: NaiveDate): (r: LocalResult<ToyState>)
    ensures r.None? <==> local == z.gap
    ensures r.Ambiguous? <==> local == z.fold
  {
    if local < z.gap then Single(ToyState(z, false))
    else if local == z.gap then LocalResult.None
    else if local < z.fold then Single(ToyState(z, true))
    else if local == z.fold then Ambiguous(ToyState(z, true), ToyState(z, false))
    else Single(ToyState(z, false))
  }

  /** Times of day carry no date, so they resolve to the standard state. */
  const TOY: Backend<ToyZone, ToyState> := Backend(
    (s: ToyState) => s.zone,
    ToySkew,
    (s: ToyState) => if s.dst then "+24:00" else "+00:00",
    ToyLocalDate,
    (z: ToyZone, _: NaiveTime) => Single(ToyState(z, false)),
    (z: ToyZone, l: NaiveDateTime) => ToyLocalDate(z, l.date),
    ToyUtcDate,
    (z: ToyZone, _: NaiveTime) => ToyState(z, false),
    (z: ToyZone, u: NaiveDateTime) => ToyUtcDate(z, u.date))

  lemma ToyIsResolvable(z: ToyZone, local: NaiveDate)
    ensures LocalDateResolvable(TOY, z, local)
  {
    WholeDaysNegate(SecsPerDay);
    WholeDaysOfDays(1);
  }

  lemma ToyIsConsistent(z: ToyZone)
    ensures ConsistentDates(TOY, z) && RebuildsFromStates(TOY, z)
  {
    WholeDaysOfDays(1);
    WholeDaysNegate(SecsPerDay);
    forall u: NaiveDate ensures UtcDateRoundTrips(TOY, z, u) {
    }
    forall l: NaiveDate ensures LocalDateRoundTrips(TOY, z, l) {
    }
  }

  /** The local day the clocks skip has no date at all. */
  lemma ToyGap(z: ToyZone)
    ensures LocalDateResolvable(TOY, z, z.gap)
    ensures FromLocalDate(TOY, z, z.gap).None?
  {
  }

  /** The local day the clocks repeat has two dates, a UTC day apart,
      both showing that local day; `earliest` is the earlier one. */
  lemma ToyFold(z: ToyZone)
    ensures LocalDateResolvable(TOY, z, z.fold)
    ensures FromLocalDate(TOY, z, z.fold).Ambiguous?
    ensures NaiveUtc(FromLocalDate(TOY, z, z.fold).min) + 1 == NaiveUtc(FromLocalDate(TOY, z, z.fold).max)
    ensures FromLocalDate(TOY, z, z.fold).Earliest() == Some(FromLocalDate(TOY, z, z.fold).min)
  {
    ToyIsResolvable(z, z.fold);
    WholeDaysNegate(SecsPerDay);
    WholeDaysOfDays(1);
  }

  /** Field mutation that lands on the skipped or the repeated local day
      yields nothing, even though the date it started from is valid. */
  lemma ToyMutationIntoTransitionFails(cal: Calendar, d: Date<ToyState>, day: u32)
    requires HasLocalDate(TOY, d)
    requires cal.withDay(NaiveLocal(TOY, d), day) == Some(d.offset.zone.gap) ||
             cal.withDay(NaiveLocal(TOY, d), day) == Some(d.offset.zone.fold)
    ensures ParsedDateResolvable(TOY, Timezone(TOY, d), cal.withDay(NaiveLocal(TOY, d), day))
    ensures WithDay(cal, TOY, d, day).None?
  {
    ToyIsResolvable(d.offset.zone, cal.withDay(NaiveLocal(TOY, d), day).value);
  }

  /** `and_time` does not keep the offset in general: the date the toy
      zone makes of UTC day `fold` shows the repeated local day, so joining
      any time of day to it is ambiguous and yields nothing. */
  lemma ToyAndTimeAtFoldFails(z: ToyZone, time: NaiveTime)
    ensures HasLocalDate(TOY, FromUtcDate(TOY, z, z.fold))
    ensures NaiveLocal(TOY, FromUtcDate(TOY, z, z.fold)) == z.fold
    ensures CanCombine(TOY, FromUtcDate(TOY, z, z.fold), Some(time))
    ensures AndTime(TOY, FromUtcDate(TOY, z, z.fold), time).None?
  {
    WholeDaysNegate(SecsPerDay);
    WholeDaysOfDays(1);
  }
}
