/**
 * Operations of the zoned `Date`: combining with a time of day, stepping
 * by a day, retargeting to another zone, mutating a local field,
 * comparison and arithmetic, all derived from the stored UTC date and
 * offset state; and the `LocalResult<Date>` combinators that chain into
 * a `DateTime`.
 */
module Dates {
  import opened Wrappers
  import opened Naive
  import opened LocalResults
  import opened Backends
  import opened Zoned
  import opened Offsets

  // ----- combining with a time of day -----

  /** When a time was parsed, `d`'s local date joined with it can be
      taken back to UTC through the zone of `d` without overflow; an
      invalid time never reaches the local view, so it cannot panic. */
  predicate CanCombine<Tz, S>(b: Backend<Tz, S>, d: Date<S>, time: Option<NaiveTime>)
  {
    time.Some? ==>
      HasLocalDate(b, d) &&
      LocalDatetimeResolvable(b, Timezone(b, d), NaiveDateTime(NaiveLocal(b, d), time.value))
  }

  /** What combining `d` with the parsed time `time` yields: nothing for an
      invalid time; otherwise a date-time exactly when the zone of `d`
      resolves the combined local value uniquely, and then it shows that
      local value with the unique state. */
  ghost predicate CombinesLocal<Tz, S>(b: Backend<Tz, S>, d: Date<S>, time: Option<NaiveTime>, r: Option<DateTime<S>>)
    requires time.Some? ==> HasLocalDate(b, d)
  {
    match time
    case None => r.None?
    case Some(t) =>
      var local := NaiveDateTime(NaiveLocal(b, d), t);
      (r.Some? <==> b.stateFromLocalDatetime(Timezone(b, d), local).Single?) &&
      (r.Some? ==>
        HasLocalDateTime(b, r.value) && DateTimeNaiveLocal(b, r.value) == local &&
        b.stateFromLocalDatetime(Timezone(b, d), local) == Single(r.value.offset))
  }

  /** `and_time`: re-resolves the local date and `time` through the same
      zone, keeping only a unique result. */
  function AndTime<Tz, S>(b: Backend<Tz, S>, d: Date<S>, time: NaiveTime): (r: Option<DateTime<S>>)
    requires CanCombine(b, d, Some(time))
    ensures CombinesLocal(b, d, Some(time), r)
  {
    FromLocalDatetime(b, Timezone(b, d), NaiveDateTime(NaiveLocal(b, d), time)).ToSingle()
  }

  /** `and_time` keeps the date's own offset state exactly when the zone
      resolves the combined local value uniquely to that state. */
  lemma AndTimeKeepsOffset<Tz, S>(b: Backend<Tz, S>, d: Date<S>, time: NaiveTime)
    requires CanCombine(b, d, Some(time))
    ensures b.stateFromLocalDatetime(Timezone(b, d), NaiveDateTime(NaiveLocal(b, d), time)) == Single(d.offset)
        <==> AndTime(b, d, time).Some? && AndTime(b, d, time).value.offset == d.offset
  {
  }

  function AndParsedTime<Tz, S>(b: Backend<Tz, S>, d: Date<S>, time: Option<NaiveTime>): (r: Option<DateTime<S>>)
    requires CanCombine(b, d, time)
    ensures CombinesLocal(b, d, time, r)
  {
    match time
    case Some(t) => AndTime(b, d, t)
    case None => Option.None
  }

  /** `and_hms_opt`. */
  function AndHmsOpt<Tz, S>(cal: Calendar, b: Backend<Tz, S>, d: Date<S>, hour: u32, min: u32, sec: u32): (r: Option<DateTime<S>>)
    requires CanCombine(b, d, cal.fromHms(hour, min, sec))
    ensures CombinesLocal(b, d, cal.fromHms(hour, min, sec), r)
  {
    AndParsedTime(b, d, cal.fromHms(hour, min, sec))
  }

  /** `and_hms_milli_opt`. */
  function AndHmsMilliOpt<Tz, S>(cal: Calendar, b: Backend<Tz, S>, d: Date<S>, hour: u32, min: u32, sec: u32, milli: u32): (r: Option<DateTime<S>>)
    requires CanCombine(b, d, cal.fromHmsMilli(hour, min, sec, milli))
    ensures CombinesLocal(b, d, cal.fromHmsMilli(hour, min, sec, milli), r)
  {
    AndParsedTime(b, d, cal.fromHmsMilli(hour, min, sec, milli))
  }

  /** `and_hms_micro_opt`. */
  function AndHmsMicroOpt<Tz, S>(cal: Calendar, b: Backend<Tz, S>, d: Date<S>, hour: u32, min: u32, sec: u32, micro: u32): (r: Option<DateTime<S>>)
    requires CanCombine(b, d, cal.fromHmsMicro(hour, min, sec, micro))
    ensures CombinesLocal(b, d, cal.fromHmsMicro(hour, min, sec, micro), r)
  {
    AndParsedTime(b, d, cal.fromHmsMicro(hour, min, sec, micro))
  }

  /** `and_hms_nano_opt`. */
  function AndHmsNanoOpt<Tz, S>(cal: Calendar, b: Backend<Tz, S>, d: Date<S>, hour: u32, min: u32, sec: u32, nano: u32): (r: Option<DateTime<S>>)
    requires CanCombine(b, d, cal.fromHmsNano(hour, min, sec, nano))
    ensures CombinesLocal(b, d, cal.fromHmsNano(hour, min, sec, nano), r)
  {
    AndParsedTime(b, d, cal.fromHmsNano(hour, min, sec, nano))
  }

  /** The panicking forms ("invalid time") require a result. */

  /** `and_hms`. */
  function AndHms<Tz, S>(cal: Calendar, b: Backend<Tz, S>, d: Date<S>, hour: u32, min: u32, sec: u32): (dt: DateTime<S>)
    requires CanCombine(b, d, cal.fromHms(hour, min, sec))
    requires AndHmsOpt(cal, b, d, hour, min, sec).Some?
    ensures cal.fromHms(hour, min, sec).Some? && HasLocalDate(b, d)
    ensures HasLocalDateTime(b, dt)
    ensures DateTimeNaiveLocal(b, dt) == NaiveDateTime(NaiveLocal(b, d), cal.fromHms(hour, min, sec).value)
    ensures b.stateFromLocalDatetime(Timezone(b, d), DateTimeNaiveLocal(b, dt)) == Single(dt.offset)
  {
    AndHmsOpt(cal, b, d, hour, min, sec).value
  }

  /** `and_hms_milli`. */
  function AndHmsMilli<Tz, S>(cal: Calendar, b: Backend<Tz, S>, d: Date<S>, hour: u32, min: u32, sec: u32, milli: u32): (dt: DateTime<S>)
    requires CanCombine(b, d, cal.fromHmsMilli(hour, min, sec, milli))
    requires AndHmsMilliOpt(cal, b, d, hour, min, sec, milli).Some?
    ensures cal.fromHmsMilli(hour, min, sec, milli).Some? && HasLocalDate(b, d)
    ensures HasLocalDateTime(b, dt)
    ensures DateTimeNaiveLocal(b, dt) == NaiveDateTime(NaiveLocal(b, d), cal.fromHmsMilli(hour, min, sec, milli).value)
    ensures b.stateFromLocalDatetime(Timezone(b, d), DateTimeNaiveLocal(b, dt)) == Single(dt.offset)
  {
    AndHmsMilliOpt(cal, b, d, hour, min, sec, milli).value
  }

  /** `and_hms_micro`. */
  function AndHmsMicro<Tz, S>(cal: Calendar, b: Backend<Tz, S>, d: Date<S>, hour: u32, min: u32, sec: u32, micro: u32): (dt: DateTime<S>)
    requires CanCombine(b, d, cal.fromHmsMicro(hour, min, sec, micro))
    requires AndHmsMicroOpt(cal, b, d, hour, min, sec, micro).Some?
    ensures cal.fromHmsMicro(hour, min, sec, micro).Some? && HasLocalDate(b, d)
    ensures HasLocalDateTime(b, dt)
    ensures DateTimeNaiveLocal(b, dt) == NaiveDateTime(NaiveLocal(b, d), cal.fromHmsMicro(hour, min, sec, micro).value)
    ensures b.stateFromLocalDatetime(Timezone(b, d), DateTimeNaiveLocal(b, dt)) == Single(dt.offset)
  {
    AndHmsMicroOpt(cal, b, d, hour, min, sec, micro).value
  }

  /** `and_hms_nano`. */
  function AndHmsNano<Tz, S>(cal: Calendar, b: Backend<Tz, S>, d: Date<S>, hour: u32, min: u32, sec: u32, nano: u32): (dt: DateTime<S>)
    requires CanCombine(b, d, cal.fromHmsNano(hour, min, sec, nano))
    requires AndHmsNanoOpt(cal, b, d, hour, min, sec, nano).Some?
    ensures cal.fromHmsNano(hour, min, sec, nano).Some? && HasLocalDate(b, d)
    ensures HasLocalDateTime(b, dt)
    ensures DateTimeNaiveLocal(b, dt) == NaiveDateTime(NaiveLocal(b, d), cal.fromHmsNano(hour, min, sec, nano).value)
    ensures b.stateFromLocalDatetime(Timezone(b, d), DateTimeNaiveLocal(b, dt)) == Single(dt.offset)
  {
    AndHmsNanoOpt(cal, b, d, hour, min, sec, nano).value
  }

  // ----- chaining on a resolved date (the `LocalResult<Date>` impl) -----

  /** `LocalResult<Date>::and_time`: a gap or a fold gives nothing; a
      unique date gives what its `and_time` gives. */
  function ResultAndTime<Tz, S>(b: Backend<Tz, S>, r: LocalResult<Date<S>>, time: NaiveTime): (res: LocalResult<DateTime<S>>)
    requires r.Single? ==> CanCombine(b, r.value, Some(time))
    ensures !res.Ambiguous?
    ensures !r.Single? ==> res.None?
    ensures r.Single? ==> res.ToSingle() == AndTime(b, r.value, time)
  {
    match r
    case Single(d) =>
      (match AndTime(b, d, time)
       case Some(dt) => Single(dt)
       case None => LocalResult.None)
    case _ => LocalResult.None
  }

  /** `LocalResult<Date>::and_hms_opt`. */
  function ResultAndHmsOpt<Tz, S>(cal: Calendar, b: Backend<Tz, S>, r: LocalResult<Date<S>>, hour: u32, min: u32, sec: u32): (res: LocalResult<DateTime<S>>)
    requires r.Single? ==> CanCombine(b, r.value, cal.fromHms(hour, min, sec))
    ensures !res.Ambiguous?
    ensures !r.Single? ==> res.None?
    ensures r.Single? ==> res.ToSingle() == AndHmsOpt(cal, b, r.value, hour, min, sec)
  {
    match r
    case Single(d) =>
      (match AndHmsOpt(cal, b, d, hour, min, sec)
       case Some(dt) => Single(dt)
       case None => LocalResult.None)
    case _ => LocalResult.None
  }

  /** `LocalResult<Date>::and_hms_milli_opt`. */
  function ResultAndHmsMilliOpt<Tz, S>(cal: Calendar, b: Backend<Tz, S>, r: LocalResult<Date<S>>, hour: u32, min: u32, sec: u32, milli: u32): (res: LocalResult<DateTime<S>>)
    requires r.Single? ==> CanCombine(b, r.value, cal.fromHmsMilli(hour, min, sec, milli))
    ensures !res.Ambiguous?
    ensures !r.Single? ==> res.None?
    ensures r.Single? ==> res.ToSingle() == AndHmsMilliOpt(cal, b, r.value, hour, min, sec, milli)
  {
    match r
    case Single(d) =>
      (match AndHmsMilliOpt(cal, b, d, hour, min, sec, milli)
       case Some(dt) => Single(dt)
       case None => LocalResult.None)
    case _ => LocalResult.None
  }

  /** `LocalResult<Date>::and_hms_micro_opt`. */
  function ResultAndHmsMicroOpt<Tz, S>(cal: Calendar, b: Backend<Tz, S>, r: LocalResult<Date<S>>, hour: u32, min: u32, sec: u32, micro: u32): (res: LocalResult<DateTime<S>>)
    requires r.Single? ==> CanCombine(b, r.value, cal.fromHmsMicro(hour, min, sec, micro))
    ensures !res.Ambiguous?
    ensures !r.Single? ==> res.None?
    ensures r.Single? ==> res.ToSingle() == AndHmsMicroOpt(cal, b, r.value, hour, min, sec, micro)
  {
    match r
    case Single(d) =>
      (match AndHmsMicroOpt(cal, b, d, hour, min, sec, micro)
       case Some(dt) => Single(dt)
       case None => LocalResult.None)
    case _ => LocalResult.None
  }

  /** `LocalResult<Date>::and_hms_nano_opt`. */
  function ResultAndHmsNanoOpt<Tz, S>(cal: Calendar, b: Backend<Tz, S>, r: LocalResult<Date<S>>, hour: u32, min: u32, sec: u32, nano: u32): (res: LocalResult<DateTime<S>>)
    requires r.Single? ==> CanCombine(b, r.value, cal.fromHmsNano(hour, min, sec, nano))
    ensures !res.Ambiguous?
    ensures !r.Single? ==> res.None?
    ensures r.Single? ==> res.ToSingle() == AndHmsNanoOpt(cal, b, r.value, hour, min, sec, nano)
  {
    match r
    case Single(d) =>
      (match AndHmsNanoOpt(cal, b, d, hour, min, sec, nano)
       case Some(dt) => Single(dt)
       case None => LocalResult.None)
    case _ => LocalResult.None
  }

  // ----- stepping by a day -----

  /** `succ_opt`: the next UTC date with the same offset state (the zone
      is not asked again); nothing at the last representable date. */
  function SuccOpt<S>(d: Date<S>): (r: Option<Date<S>>)
    ensures r.None? <==> NaiveUtc(d) == MaxDay
    ensures r.Some? ==> NaiveUtc(r.value) == NaiveUtc(d) + 1 && r.value.offset == d.offset
  {
    match Naive.SuccOpt(d.date)
    case Some(next) => Some(Date(next, d.offset))
    case None => Option.None
  }

  /** `pred_opt`: the previous UTC date with the same offset state;
      nothing at the first representable date. */
  function PredOpt<S>(d: Date<S>): (r: Option<Date<S>>)
    ensures r.None? <==> NaiveUtc(d) == MinDay
    ensures r.Some? ==> NaiveUtc(r.value) == NaiveUtc(d) - 1 && r.value.offset == d.offset
  {
    match Naive.PredOpt(d.date)
    case Some(prev) => Some(Date(prev, d.offset))
    case None => Option.None
  }

  /** `succ`; "out of bound" at the last date is a panic. */
  function Succ<S>(d: Date<S>): (r: Date<S>)
    requires NaiveUtc(d) < MaxDay
    ensures NaiveUtc(r) == NaiveUtc(d) + 1 && r.offset == d.offset
  {
    SuccOpt(d).value
  }

  /** `pred`; "out of bound" at the first date is a panic. */
  function Pred<S>(d: Date<S>): (r: Date<S>)
    requires NaiveUtc(d) > MinDay
    ensures NaiveUtc(r) == NaiveUtc(d) - 1 && r.offset == d.offset
  {
    PredOpt(d).value
  }

  lemma PredOfSucc<S>(d: Date<S>)
    requires NaiveUtc(d) != MaxDay
    ensures SuccOpt(d).Some? && PredOpt(SuccOpt(d).value) == Some(d)
  {
  }

  lemma SuccOfPred<S>(d: Date<S>)
    requires NaiveUtc(d) != MinDay
    ensures PredOpt(d).Some? && SuccOpt(PredOpt(d).value) == Some(d)
  {
  }

  /** Stepping keeps the offset, so the local date moves by one day too. */
  lemma SuccStepsLocalDate<Tz, S>(b: Backend<Tz, S>, d: Date<S>)
    requires NaiveUtc(d) != MaxDay && HasLocalDate(b, d) && HasLocalDate(b, Succ(d))
    ensures NaiveLocal(b, Succ(d)) == NaiveLocal(b, d) + 1
  {
  }

  // ----- zone retargeting -----

  /** `with_timezone`: the same UTC date, resolved from UTC by `tz2`. */
  function WithTimezone<Tz2, S, S2>(b2: Backend<Tz2, S2>, tz2: Tz2, d: Date<S>): (r: Date<S2>)
    ensures NaiveUtc(r) == NaiveUtc(d) && r.offset == b2.stateFromUtcDate(tz2, NaiveUtc(d))
  {
    FromUtcDate(b2, tz2, d.date)
  }

  /** A retargeted date compares equal to the original, its zone is the
      target zone, and under a self-consistent target zone its local date
      resolves back to it. */
  lemma WithTimezoneKeepsInstant<Tz2, S, S2>(b2: Backend<Tz2, S2>, tz2: Tz2, d: Date<S>)
    ensures Eq(WithTimezone(b2, tz2, d), d)
    ensures RebuildsFromStates(b2, tz2) ==> Timezone(b2, WithTimezone(b2, tz2, d)) == tz2
    ensures (ConsistentDates(b2, tz2) && HasLocalDate(b2, WithTimezone(b2, tz2, d)) &&
             LocalDateResolvable(b2, tz2, NaiveLocal(b2, WithTimezone(b2, tz2, d)))) ==>
      FromLocalDate(b2, tz2, NaiveLocal(b2, WithTimezone(b2, tz2, d))).Contains(WithTimezone(b2, tz2, d))
  {
    if ConsistentDates(b2, tz2) && HasLocalDate(b2, WithTimezone(b2, tz2, d)) &&
       LocalDateResolvable(b2, tz2, NaiveLocal(b2, WithTimezone(b2, tz2, d))) {
      UtcLocalRoundTrip(b2, tz2, NaiveUtc(d));
    }
  }

  // ----- field mutation through the local view -----

  /** What `map_local` yields for the mutated local date `mutated`:
      nothing if the mutation failed; otherwise a date exactly when the
      zone `tz` resolves the new local date uniquely, and then that date
      shows it. */
  ghost predicate MapsLocal<Tz, S>(b: Backend<Tz, S>, tz: Tz, mutated: Option<NaiveDate>, r: Option<Date<S>>)
  {
    match mutated
    case None => r.None?
    case Some(local) =>
      (r.Some? <==> b.stateFromLocalDate(tz, local).Single?) &&
      (r.Some? ==>
        HasLocalDate(b, r.value) && NaiveLocal(b, r.value) == local &&
        b.stateFromLocalDate(tz, local) == Single(r.value.offset))
  }

  /** `map_local`: mutate the local view, then re-resolve it through the
      date's own zone, keeping only a unique result. */
  function MapLocal<Tz, S>(b: Backend<Tz, S>, d: Date<S>, f: NaiveDate -> Option<NaiveDate>): (r: Option<Date<S>>)
    requires HasLocalDate(b, d)
    requires ParsedDateResolvable(b, Timezone(b, d), f(NaiveLocal(b, d)))
    ensures MapsLocal(b, Timezone(b, d), f(NaiveLocal(b, d)), r)
  {
    match f(NaiveLocal(b, d))
    case Some(local) => FromLocalDate(b, Timezone(b, d), local).ToSingle()
    case None => Option.None
  }

  /** `with_year`. */
  function WithYear<Tz, S>(cal: Calendar, b: Backend<Tz, S>, d: Date<S>, year: i32): (r: Option<Date<S>>)
    requires HasLocalDate(b, d)
    requires ParsedDateResolvable(b, Timezone(b, d), cal.withYear(NaiveLocal(b, d), year))
    ensures MapsLocal(b, Timezone(b, d), cal.withYear(NaiveLocal(b, d), year), r)
  {
    MapLocal(b, d, local => cal.withYear(local, year))
  }

  /** `with_month`. */
  function WithMonth<Tz, S>(cal: Calendar, b: Backend<Tz, S>, d: Date<S>, month: u32): (r: Option<Date<S>>)
    requires HasLocalDate(b, d)
    requires ParsedDateResolvable(b, Timezone(b, d), cal.withMonth(NaiveLocal(b, d), month))
    ensures MapsLocal(b, Timezone(b, d), cal.withMonth(NaiveLocal(b, d), month), r)
  {
    MapLocal(b, d, local => cal.withMonth(local, month))
  }

  /** `with_month0`. */
  function WithMonth0<Tz, S>(cal: Calendar, b: Backend<Tz, S>, d: Date<S>, month0: u32): (r: Option<Date<S>>)
    requires HasLocalDate(b, d)
    requires ParsedDateResolvable(b, Timezone(b, d), cal.withMonth0(NaiveLocal(b, d), month0))
    ensures MapsLocal(b, Timezone(b, d), cal.withMonth0(NaiveLocal(b, d), month0), r)
  {
    MapLocal(b, d, local => cal.withMonth0(local, month0))
  }

  /** `with_day`. */
  function WithDay<Tz, S>(cal: Calendar, b: Backend<Tz, S>, d: Date<S>, day: u32): (r: Option<Date<S>>)
    requires HasLocalDate(b, d)
    requires ParsedDateResolvable(b, Timezone(b, d), cal.withDay(NaiveLocal(b, d), day))
    ensures MapsLocal(b, Timezone(b, d), cal.withDay(NaiveLocal(b, d), day), r)
  {
    MapLocal(b, d, local => cal.withDay(local, day))
  }

  /** `with_day0`. */
  function WithDay0<Tz, S>(cal: Calendar, b: Backend<Tz, S>, d: Date<S>, day0: u32): (r: Option<Date<S>>)
    requires HasLocalDate(b, d)
    requires ParsedDateResolvable(b, Timezone(b, d), cal.withDay0(NaiveLocal(b, d), day0))
    ensures MapsLocal(b, Timezone(b, d), cal.withDay0(NaiveLocal(b, d), day0), r)
  {
    MapLocal(b, d, local => cal.withDay0(local, day0))
  }

  /** `with_ordinal`. */
  function WithOrdinal<Tz, S>(cal: Calendar, b: Backend<Tz, S>, d: Date<S>, ordinal: u32): (r: Option<Date<S>>)
    requires HasLocalDate(b, d)
    requires ParsedDateResolvable(b, Timezone(b, d), cal.withOrdinal(NaiveLocal(b, d), ordinal))
    ensures MapsLocal(b, Timezone(b, d), cal.withOrdinal(NaiveLocal(b, d), ordinal), r)
  {
    MapLocal(b, d, local => cal.withOrdinal(local, ordinal))
  }

  /** `with_ordinal0`. */
  function WithOrdinal0<Tz, S>(cal: Calendar, b: Backend<Tz, S>, d: Date<S>, ordinal0: u32): (r: Option<Date<S>>)
    requires HasLocalDate(b, d)
    requires ParsedDateResolvable(b, Timezone(b, d), cal.withOrdinal0(NaiveLocal(b, d), ordinal0))
    ensures MapsLocal(b, Timezone(b, d), cal.withOrdinal0(NaiveLocal(b, d), ordinal0), r)
  {
    MapLocal(b, d, local => cal.withOrdinal0(local, ordinal0))
  }

  // ----- comparison and arithmetic -----

  /** `==`, also between dates of different zones: the UTC dates only. */
  predicate Eq<S1, S2>(a: Date<S1>, c: Date<S2>): (r: bool)
    ensures r <==> NaiveUtc(a) == NaiveUtc(c)
  {
    a.date == c.date
  }

  datatype Ordering = Less | Equal | Greater {
    function Reverse(): Ordering
    {
      match this
      case Less => Greater
      case Equal => Equal
      case Greater => Less
    }
  }

  /** `cmp`: the order of the UTC dates. */
  function Cmp<S>(a: Date<S>, c: Date<S>): (r: Ordering)
    ensures r == Less <==> NaiveUtc(a) < NaiveUtc(c)
    ensures r == Equal <==> Eq(a, c)
    ensures r == Greater <==> NaiveUtc(c) < NaiveUtc(a)
  {
    if a.date < c.date then Less else if a.date == c.date then Equal else Greater
  }

  /** `partial_cmp`: always defined, and the same as `cmp`. */
  function PartialCmp<S>(a: Date<S>, c: Date<S>): (r: Option<Ordering>)
    ensures r == Some(Cmp(a, c))
  {
    Some(Cmp(a, c))
  }

  /** Equality ignores the offsets, whatever zones the dates belong to,
      and is an equivalence. */
  lemma EqIsUtcOnly<S1, S2, S3>(a: Date<S1>, c: Date<S2>, e: Date<S3>)
    ensures Eq(a, c) <==> NaiveUtc(a) == NaiveUtc(c)
    ensures Eq(a, a) && (Eq(a, c) ==> Eq(c, a)) && (Eq(a, c) && Eq(c, e) ==> Eq(a, e))
  {
  }

  /** `cmp` is a total order that agrees with `==`. */
  lemma CmpIsTotalOrder<S>(a: Date<S>, c: Date<S>, e: Date<S>)
    ensures Cmp(a, c) == Equal <==> Eq(a, c)
    ensures Cmp(c, a) == Cmp(a, c).Reverse()
    ensures Cmp(a, c) == Less <==> NaiveUtc(a) < NaiveUtc(c)
    ensures Cmp(a, c) != Greater && Cmp(c, e) != Greater ==> Cmp(a, e) != Greater
  {
  }

  /** `date + duration`: moves the UTC date by the duration's whole days
      and keeps the offset state; overflowing the range is a panic. */
  function Add<S>(d: Date<S>, dur: Duration): (r: Date<S>)
    requires CanShift(NaiveUtc(d), dur)
    ensures NaiveUtc(r) - NaiveUtc(d) == WholeDays(dur) && r.offset == d.offset
  {
    Date(AddDuration(d.date, dur), d.offset)
  }

  /** `date - duration`, defined as `date + (-duration)`. */
  function Sub<S>(d: Date<S>, dur: Duration): (r: Date<S>)
    requires CanShift(NaiveUtc(d), -dur)
    ensures NaiveUtc(d) - NaiveUtc(r) == WholeDays(dur) && r.offset == d.offset
  {
    WholeDaysNegate(dur);
    Add(d, -dur)
  }

  /** `date - date`: the whole days between the UTC dates, whatever the
      zones and offsets of the two dates. */
  function SubDate<S1, S2>(a: Date<S1>, c: Date<S2>): (r: Duration)
    ensures WholeDays(r) == NaiveUtc(a) - NaiveUtc(c) && r % SecsPerDay == 0
  {
    DateDiff(a.date, c.date)
  }

  lemma SubUndoesAdd<S>(d: Date<S>, dur: Duration)
    requires CanShift(NaiveUtc(d), dur)
    ensures CanShift(NaiveUtc(Add(d, dur)), -dur) && Sub(Add(d, dur), dur) == d
  {
    WholeDaysNegate(dur);
  }

  /** Adding the difference of two dates to the second gives a date equal
      to the first. */
  lemma AddDifference<S1, S2>(a: Date<S1>, c: Date<S2>)
    ensures CanShift(NaiveUtc(c), SubDate(a, c)) && Eq(Add(c, SubDate(a, c)), a)
  {
  }

  /** Arithmetic keeps the offset, so the local date moves by the same
      whole days as the UTC date. */
  lemma AddMovesLocalDate<Tz, S>(b: Backend<Tz, S>, d: Date<S>, dur: Duration)
    requires CanShift(NaiveUtc(d), dur) && HasLocalDate(b, d) && HasLocalDate(b, Add(d, dur))
    ensures NaiveLocal(b, Add(d, dur)) - NaiveLocal(b, d) == WholeDays(dur)
  {
  }

  // ----- debug rendering -----

  /** The debug rendering: the local date's, then the offset state's. */
  function Debug<Tz, S>(cal: Calendar, b: Backend<Tz, S>, d: Date<S>): (r: string)
    requires HasLocalDate(b, d)
    ensures |r| == |cal.showDate(NaiveLocal(b, d))| + |b.showState(d.offset)|
    ensures r[..|cal.showDate(NaiveLocal(b, d))|] == cal.showDate(NaiveLocal(b, d))
    ensures r[|cal.showDate(NaiveLocal(b, d))|..] == b.showState(d.offset)
  {
    cal.showDate(NaiveLocal(b, d)) + b.showState(d.offset)
  }

  /** A `DateTime` renders the same way, from its local date-time. */
  function DebugDateTime<Tz, S>(cal: Calendar, b: Backend<Tz, S>, dt: DateTime<S>): (r: string)
    requires HasLocalDateTime(b, dt)
    ensures |r| == |cal.showDateTime(DateTimeNaiveLocal(b, dt))| + |b.showState(dt.offset)|
    ensures r[..|cal.showDateTime(DateTimeNaiveLocal(b, dt))|] == cal.showDateTime(DateTimeNaiveLocal(b, dt))
    ensures r[|cal.showDateTime(DateTimeNaiveLocal(b, dt))|..] == b.showState(dt.offset)
  {
    cal.showDateTime(DateTimeNaiveLocal(b, dt)) + b.showState(dt.offset)
  }
}
