/**
 * The constructors every zone backend gets for free: resolving a local
 * value into zoned values (`from_local_*`), wrapping a UTC value
 * (`from_utc_*`), and the field constructors that validate calendar or
 * clock fields first and then resolve through the zone (`ymd_opt`,
 * `yo_opt`, `isoywd_opt`, `hms*_opt`) with their panicking forms.
 */
module Offsets {
  import opened Wrappers
  import opened Naive
  import opened LocalResults
  import opened Backends
  import opened Zoned

  /** Every candidate in `r` shows the local date `local`. */
  predicate AllShowLocalDate<Tz, S>(b: Backend<Tz, S>, r: LocalResult<Date<S>>, local: NaiveDate)
  {
    match r
    case None => true
    case Single(d) => HasLocalDate(b, d) && NaiveLocal(b, d) == local
    case Ambiguous(d1, d2) =>
      HasLocalDate(b, d1) && NaiveLocal(b, d1) == local &&
      HasLocalDate(b, d2) && NaiveLocal(b, d2) == local
  }

  predicate AllShowLocalTime<Tz, S>(b: Backend<Tz, S>, r: LocalResult<Time<S>>, local: NaiveTime)
  {
    match r
    case None => true
    case Single(t) => TimeNaiveLocal(b, t) == local
    case Ambiguous(t1, t2) => TimeNaiveLocal(b, t1) == local && TimeNaiveLocal(b, t2) == local
  }

  predicate AllShowLocalDateTime<Tz, S>(b: Backend<Tz, S>, r: LocalResult<DateTime<S>>, local: NaiveDateTime)
  {
    match r
    case None => true
    case Single(dt) => HasLocalDateTime(b, dt) && DateTimeNaiveLocal(b, dt) == local
    case Ambiguous(dt1, dt2) =>
      HasLocalDateTime(b, dt1) && DateTimeNaiveLocal(b, dt1) == local &&
      HasLocalDateTime(b, dt2) && DateTimeNaiveLocal(b, dt2) == local
  }

  /** The zoned date whose UTC date is `local - state`. */
  function DateFromLocal<Tz, S>(b: Backend<Tz, S>, local: NaiveDate, s: S): (d: Date<S>)
    requires CanShift(local, -b.localMinusUtc(s))
    ensures d.offset == s && HasLocalDate(b, d) && NaiveLocal(b, d) == local
  {
    WholeDaysNegate(b.localMinusUtc(s));
    Date(SubDuration(local, b.localMinusUtc(s)), s)
  }

  function DateTimeFromLocal<Tz, S>(b: Backend<Tz, S>, local: NaiveDateTime, s: S): (dt: DateTime<S>)
    requires DateTimeCanShift(local, -b.localMinusUtc(s))
    ensures dt.offset == s && HasLocalDateTime(b, dt) && DateTimeNaiveLocal(b, dt) == local
  {
    var utc := DateTimeSubDuration(local, b.localMinusUtc(s));
    DateTimeSubAdd(local, b.localMinusUtc(s));
    DateTime(utc, s)
  }

  /** `from_local_date`: one zoned date per candidate state, in the same
      variant, each showing `local` as its local date. */
  function FromLocalDate<Tz, S>(b: Backend<Tz, S>, tz: Tz, local: NaiveDate): (r: LocalResult<Date<S>>)
    requires LocalDateResolvable(b, tz, local)
    ensures r.Map(DateOffset) == b.stateFromLocalDate(tz, local)
    ensures AllShowLocalDate(b, r, local)
  {
    match b.stateFromLocalDate(tz, local)
    case None => LocalResult.None
    case Single(s) => Single(DateFromLocal(b, local, s))
    case Ambiguous(s1, s2) => Ambiguous(DateFromLocal(b, local, s1), DateFromLocal(b, local, s2))
  }

  /** `from_local_time`; time arithmetic wraps, so it cannot overflow. */
  function FromLocalTime<Tz, S>(b: Backend<Tz, S>, tz: Tz, local: NaiveTime): (r: LocalResult<Time<S>>)
    ensures r.Map(TimeOffset) == b.stateFromLocalTime(tz, local)
    ensures AllShowLocalTime(b, r, local)
  {
    var r := b.stateFromLocalTime(tz, local).Map(s => Time(TimeSubDuration(local, b.localMinusUtc(s)), s));
    assert r.Map(TimeOffset) == b.stateFromLocalTime(tz, local) by {
      MapCompose(b.stateFromLocalTime(tz, local), s => Time(TimeSubDuration(local, b.localMinusUtc(s)), s), TimeOffset);
      MapIdentity(b.stateFromLocalTime(tz, local));
    }
    match r
    case None => r
    case Single(t) =>
      TimeSubAdd(local, b.localMinusUtc(t.offset));
      r
    case Ambiguous(t1, t2) =>
      TimeSubAdd(local, b.localMinusUtc(t1.offset));
      TimeSubAdd(local, b.localMinusUtc(t2.offset));
      r
  }

  /** `from_local_datetime`. */
  function FromLocalDatetime<Tz, S>(b: Backend<Tz, S>, tz: Tz, local: NaiveDateTime): (r: LocalResult<DateTime<S>>)
    requires LocalDatetimeResolvable(b, tz, local)
    ensures r.Map(DateTimeOffset) == b.stateFromLocalDatetime(tz, local)
    ensures AllShowLocalDateTime(b, r, local)
  {
    match b.stateFromLocalDatetime(tz, local)
    case None => LocalResult.None
    case Single(s) => Single(DateTimeFromLocal(b, local, s))
    case Ambiguous(s1, s2) => Ambiguous(DateTimeFromLocal(b, local, s1), DateTimeFromLocal(b, local, s2))
  }

  /** `from_utc_date`: total; keeps exactly the given UTC date. */
  function FromUtcDate<Tz, S>(b: Backend<Tz, S>, tz: Tz, utc: NaiveDate): (d: Date<S>)
    ensures NaiveUtc(d) == utc && d.offset == b.stateFromUtcDate(tz, utc)
  {
    Date(utc, b.stateFromUtcDate(tz, utc))
  }

  /** `from_utc_time`: total; keeps exactly the given UTC time. */
  function FromUtcTime<Tz, S>(b: Backend<Tz, S>, tz: Tz, utc: NaiveTime): (t: Time<S>)
    ensures t.time == utc && t.offset == b.stateFromUtcTime(tz, utc)
  {
    Time(utc, b.stateFromUtcTime(tz, utc))
  }

  /** `from_utc_datetime`: total; keeps exactly the given UTC date-time. */
  function FromUtcDatetime<Tz, S>(b: Backend<Tz, S>, tz: Tz, utc: NaiveDateTime): (dt: DateTime<S>)
    ensures dt.datetime == utc && dt.offset == b.stateFromUtcDatetime(tz, utc)
  {
    DateTime(utc, b.stateFromUtcDatetime(tz, utc))
  }

  /** The date fields parsed (if at all) into a date the zone can resolve. */
  predicate ParsedDateResolvable<Tz, S>(b: Backend<Tz, S>, tz: Tz, parsed: Option<NaiveDate>)
  {
    parsed.Some? ==> LocalDateResolvable(b, tz, parsed.value)
  }

  /** What a date field constructor returns for the naive engine's verdict
      `parsed`: invalid fields give a gap; valid ones give the zone's
      resolution of that local date, every candidate showing it. */
  ghost predicate ResolvesLocalDate<Tz, S>(b: Backend<Tz, S>, tz: Tz, parsed: Option<NaiveDate>, r: LocalResult<Date<S>>)
  {
    match parsed
    case None => r.None?
    case Some(local) => r.Map(DateOffset) == b.stateFromLocalDate(tz, local) && AllShowLocalDate(b, r, local)
  }

  ghost predicate ResolvesLocalTime<Tz, S>(b: Backend<Tz, S>, tz: Tz, parsed: Option<NaiveTime>, r: LocalResult<Time<S>>)
  {
    match parsed
    case None => r.None?
    case Some(local) => r.Map(TimeOffset) == b.stateFromLocalTime(tz, local) && AllShowLocalTime(b, r, local)
  }

  /** A calendar failure and a zone gap look the same to the caller, and
      only the zone can make the outcome ambiguous. */
  lemma DateOutcome<Tz, S>(b: Backend<Tz, S>, tz: Tz, parsed: Option<NaiveDate>, r: LocalResult<Date<S>>)
    requires ResolvesLocalDate(b, tz, parsed, r)
    ensures r.None? <==> parsed.None? || b.stateFromLocalDate(tz, parsed.value).None?
    ensures r.Ambiguous? <==> parsed.Some? && b.stateFromLocalDate(tz, parsed.value).Ambiguous?
    ensures r.Single? <==> parsed.Some? && b.stateFromLocalDate(tz, parsed.value).Single?
  {
  }

  lemma TimeOutcome<Tz, S>(b: Backend<Tz, S>, tz: Tz, parsed: Option<NaiveTime>, r: LocalResult<Time<S>>)
    requires ResolvesLocalTime(b, tz, parsed, r)
    ensures r.None? <==> parsed.None? || b.stateFromLocalTime(tz, parsed.value).None?
    ensures r.Ambiguous? <==> parsed.Some? && b.stateFromLocalTime(tz, parsed.value).Ambiguous?
    ensures r.Single? <==> parsed.Some? && b.stateFromLocalTime(tz, parsed.value).Single?
  {
  }

  function ResolveParsedDate<Tz, S>(b: Backend<Tz, S>, tz: Tz, parsed: Option<NaiveDate>): (r: LocalResult<Date<S>>)
    requires ParsedDateResolvable(b, tz, parsed)
    ensures ResolvesLocalDate(b, tz, parsed, r)
  {
    match parsed
    case Some(d) => FromLocalDate(b, tz, d)
    case None => LocalResult.None
  }

  function ResolveParsedTime<Tz, S>(b: Backend<Tz, S>, tz: Tz, parsed: Option<NaiveTime>): (r: LocalResult<Time<S>>)
    ensures ResolvesLocalTime(b, tz, parsed, r)
  {
    match parsed
    case Some(t) => FromLocalTime(b, tz, t)
    case None => LocalResult.None
  }

  /** `ymd_opt`: year, month and day of the local date. */
  function YmdOpt<Tz, S>(cal: Calendar, b: Backend<Tz, S>, tz: Tz, year: i32, month: u32, day: u32): (r: LocalResult<Date<S>>)
    requires ParsedDateResolvable(b, tz, cal.fromYmd(year, month, day))
    ensures ResolvesLocalDate(b, tz, cal.fromYmd(year, month, day), r)
  {
    ResolveParsedDate(b, tz, cal.fromYmd(year, month, day))
  }

  /** `yo_opt`: year and day of the year of the local date. */
  function YoOpt<Tz, S>(cal: Calendar, b: Backend<Tz, S>, tz: Tz, year: i32, ordinal: u32): (r: LocalResult<Date<S>>)
    requires ParsedDateResolvable(b, tz, cal.fromYo(year, ordinal))
    ensures ResolvesLocalDate(b, tz, cal.fromYo(year, ordinal), r)
  {
    ResolveParsedDate(b, tz, cal.fromYo(year, ordinal))
  }

  /** `isoywd_opt`: ISO week-numbering year, week and weekday of the local date. */
  function IsoywdOpt<Tz, S>(cal: Calendar, b: Backend<Tz, S>, tz: Tz, year: i32, week: u32, weekday: Weekday): (r: LocalResult<Date<S>>)
    requires ParsedDateResolvable(b, tz, cal.fromIsoYwd(year, week, weekday))
    ensures ResolvesLocalDate(b, tz, cal.fromIsoYwd(year, week, weekday), r)
  {
    ResolveParsedDate(b, tz, cal.fromIsoYwd(year, week, weekday))
  }

  /** `hms_opt`. */
  function HmsOpt<Tz, S>(cal: Calendar, b: Backend<Tz, S>, tz: Tz, hour: u32, min: u32, sec: u32): (r: LocalResult<Time<S>>)
    ensures ResolvesLocalTime(b, tz, cal.fromHms(hour, min, sec), r)
  {
    ResolveParsedTime(b, tz, cal.fromHms(hour, min, sec))
  }

  /** `hms_milli_opt`; the milliseconds may reach into a leap second. */
  function HmsMilliOpt<Tz, S>(cal: Calendar, b: Backend<Tz, S>, tz: Tz, hour: u32, min: u32, sec: u32, milli: u32): (r: LocalResult<Time<S>>)
    ensures ResolvesLocalTime(b, tz, cal.fromHmsMilli(hour, min, sec, milli), r)
  {
    ResolveParsedTime(b, tz, cal.fromHmsMilli(hour, min, sec, milli))
  }

  /** `hms_micro_opt`. */
  function HmsMicroOpt<Tz, S>(cal: Calendar, b: Backend<Tz, S>, tz: Tz, hour: u32, min: u32, sec: u32, micro: u32): (r: LocalResult<Time<S>>)
    ensures ResolvesLocalTime(b, tz, cal.fromHmsMicro(hour, min, sec, micro), r)
  {
    ResolveParsedTime(b, tz, cal.fromHmsMicro(hour, min, sec, micro))
  }

  /** `hms_nano_opt`. */
  function HmsNanoOpt<Tz, S>(cal: Calendar, b: Backend<Tz, S>, tz: Tz, hour: u32, min: u32, sec: u32, nano: u32): (r: LocalResult<Time<S>>)
    ensures ResolvesLocalTime(b, tz, cal.fromHmsNano(hour, min, sec, nano), r)
  {
    ResolveParsedTime(b, tz, cal.fromHmsNano(hour, min, sec, nano))
  }

  /** The panicking forms below are `unwrap` of the checked ones: the
      caller must hold fields that resolve to exactly one value. */

  /** `ymd`. */
  function Ymd<Tz, S>(cal: Calendar, b: Backend<Tz, S>, tz: Tz, year: i32, month: u32, day: u32): (d: Date<S>)
    requires ParsedDateResolvable(b, tz, cal.fromYmd(year, month, day))
    requires YmdOpt(cal, b, tz, year, month, day).Single?
    ensures cal.fromYmd(year, month, day).Some?
    ensures HasLocalDate(b, d) && NaiveLocal(b, d) == cal.fromYmd(year, month, day).value
    ensures b.stateFromLocalDate(tz, NaiveLocal(b, d)) == Single(d.offset)
  {
    YmdOpt(cal, b, tz, year, month, day).Unwrap()
  }

  /** `yo`. */
  function Yo<Tz, S>(cal: Calendar, b: Backend<Tz, S>, tz: Tz, year: i32, ordinal: u32): (d: Date<S>)
    requires ParsedDateResolvable(b, tz, cal.fromYo(year, ordinal))
    requires YoOpt(cal, b, tz, year, ordinal).Single?
    ensures cal.fromYo(year, ordinal).Some?
    ensures HasLocalDate(b, d) && NaiveLocal(b, d) == cal.fromYo(year, ordinal).value
    ensures b.stateFromLocalDate(tz, NaiveLocal(b, d)) == Single(d.offset)
  {
    YoOpt(cal, b, tz, year, ordinal).Unwrap()
  }

  /** `isoywd`. */
  function Isoywd<Tz, S>(cal: Calendar, b: Backend<Tz, S>, tz: Tz, year: i32, week: u32, weekday: Weekday): (d: Date<S>)
    requires ParsedDateResolvable(b, tz, cal.fromIsoYwd(year, week, weekday))
    requires IsoywdOpt(cal, b, tz, year, week, weekday).Single?
    ensures cal.fromIsoYwd(year, week, weekday).Some?
    ensures HasLocalDate(b, d) && NaiveLocal(b, d) == cal.fromIsoYwd(year, week, weekday).value
    ensures b.stateFromLocalDate(tz, NaiveLocal(b, d)) == Single(d.offset)
  {
    IsoywdOpt(cal, b, tz, year, week, weekday).Unwrap()
  }

  /** `hms`. */
  function Hms<Tz, S>(cal: Calendar, b: Backend<Tz, S>, tz: Tz, hour: u32, min: u32, sec: u32): (t: Time<S>)
    requires HmsOpt(cal, b, tz, hour, min, sec).Single?
    ensures cal.fromHms(hour, min, sec).Some?
    ensures TimeNaiveLocal(b, t) == cal.fromHms(hour, min, sec).value
    ensures b.stateFromLocalTime(tz, TimeNaiveLocal(b, t)) == Single(t.offset)
  {
    HmsOpt(cal, b, tz, hour, min, sec).Unwrap()
  }

  /** `hms_milli`. */
  function HmsMilli<Tz, S>(cal: Calendar, b: Backend<Tz, S>, tz: Tz, hour: u32, min: u32, sec: u32, milli: u32): (t: Time<S>)
    requires HmsMilliOpt(cal, b, tz, hour, min, sec, milli).Single?
    ensures cal.fromHmsMilli(hour, min, sec, milli).Some?
    ensures TimeNaiveLocal(b, t) == cal.fromHmsMilli(hour, min, sec, milli).value
    ensures b.stateFromLocalTime(tz, TimeNaiveLocal(b, t)) == Single(t.offset)
  {
    HmsMilliOpt(cal, b, tz, hour, min, sec, milli).Unwrap()
  }

  /** `hms_micro`. */
  function HmsMicro<Tz, S>(cal: Calendar, b: Backend<Tz, S>, tz: Tz, hour: u32, min: u32, sec: u32, micro: u32): (t: Time<S>)
    requires HmsMicroOpt(cal, b, tz, hour, min, sec, micro).Single?
    ensures cal.fromHmsMicro(hour, min, sec, micro).Some?
    ensures TimeNaiveLocal(b, t) == cal.fromHmsMicro(hour, min, sec, micro).value
    ensures b.stateFromLocalTime(tz, TimeNaiveLocal(b, t)) == Single(t.offset)
  {
    HmsMicroOpt(cal, b, tz, hour, min, sec, micro).Unwrap()
  }

  /** `hms_nano`. */
  function HmsNano<Tz, S>(cal: Calendar, b: Backend<Tz, S>, tz: Tz, hour: u32, min: u32, sec: u32, nano: u32): (t: Time<S>)
    requires HmsNanoOpt(cal, b, tz, hour, min, sec, nano).Single?
    ensures cal.fromHmsNano(hour, min, sec, nano).Some?
    ensures TimeNaiveLocal(b, t) == cal.fromHmsNano(hour, min, sec, nano).value
    ensures b.stateFromLocalTime(tz, TimeNaiveLocal(b, t)) == Single(t.offset)
  {
    HmsNanoOpt(cal, b, tz, hour, min, sec, nano).Unwrap()
  }

  /** Resolution through a self-consistent zone: a UTC date, shown
      locally and resolved back, is among the candidates. */
  /** `timezone` of a date the zone `tz` made gives back `tz`, when every
      state it hands out rebuilds it. */
  lemma ResolvedDatesRebuildZone<Tz, S>(b: Backend<Tz, S>, tz: Tz, utc: NaiveDate, local: NaiveDate, d: Date<S>)
    requires RebuildsFromStates(b, tz)
    ensures Timezone(b, FromUtcDate(b, tz, utc)) == tz
    ensures LocalDateResolvable(b, tz, local) && FromLocalDate(b, tz, local).Contains(d) ==> Timezone(b, d) == tz
  {
    if LocalDateResolvable(b, tz, local) && FromLocalDate(b, tz, local).Contains(d) {
      assert AllRebuild(b, tz, b.stateFromLocalDate(tz, local));
      MapCommutesWithProjections(FromLocalDate(b, tz, local), DateOffset, d);
    }
  }

  lemma UtcLocalRoundTrip<Tz, S>(b: Backend<Tz, S>, tz: Tz, utc: NaiveDate)
    requires ConsistentDates(b, tz)
    requires HasLocalDate(b, FromUtcDate(b, tz, utc))
    requires LocalDateResolvable(b, tz, NaiveLocal(b, FromUtcDate(b, tz, utc)))
    ensures FromLocalDate(b, tz, NaiveLocal(b, FromUtcDate(b, tz, utc))).Contains(FromUtcDate(b, tz, utc))
  {
    var d := FromUtcDate(b, tz, utc);
    var local := NaiveLocal(b, d);
    assert UtcDateRoundTrips(b, tz, utc);
    assert LocalDateRoundTrips(b, tz, local);
    var r := FromLocalDate(b, tz, local);
    match b.stateFromLocalDate(tz, local)
    case Single(s) =>
      assert r == Single(DateFromLocal(b, local, s));
    case Ambiguous(s1, s2) =>
      assert r == Ambiguous(DateFromLocal(b, local, s1), DateFromLocal(b, local, s2));
  }

  /** Resolution through a self-consistent zone: every candidate of a
      local date is a genuine UTC date of the zone, which UTC resolution
      reproduces exactly. */
  lemma LocalUtcRoundTrip<Tz, S>(b: Backend<Tz, S>, tz: Tz, local: NaiveDate, d: Date<S>)
    requires ConsistentDates(b, tz)
    requires LocalDateResolvable(b, tz, local) && FromLocalDate(b, tz, local).Contains(d)
    ensures FromUtcDate(b, tz, NaiveUtc(d)) == d
  {
    assert LocalDateRoundTrips(b, tz, local);
    var r := FromLocalDate(b, tz, local);
    match b.stateFromLocalDate(tz, local)
    case Single(s) =>
      assert r == Single(DateFromLocal(b, local, s));
    case Ambiguous(s1, s2) =>
      assert r == Ambiguous(DateFromLocal(b, local, s1), DateFromLocal(b, local, s2));
  }
}
