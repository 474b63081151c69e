/**
 * The zoned value types: a UTC value paired with the offset state it was
 * resolved with, and the local views derived from that pair.
 */
module Zoned {
  import opened Naive
  import opened Backends

  /** `Date<Tz>`; building one directly is `Date::from_utc`. */
  datatype Date<S> = Date(date: NaiveDate, offset: S)

  /** `Time<Tz>`: a UTC time of day and its offset state. */
  datatype Time<S> = Time(time: NaiveTime, offset: S)

  /** `DateTime<Tz>`: a UTC date-time and its offset state. */
  datatype DateTime<S> = DateTime(datetime: NaiveDateTime, offset: S)

  function DateOffset<S>(d: Date<S>): S { d.offset }
  function TimeOffset<S>(t: Time<S>): S { t.offset }
  function DateTimeOffset<S>(dt: DateTime<S>): S { dt.offset }

  /** `naive_utc`: the stored UTC date, from which `from_utc` and the
      offset state rebuild the date. */
  function NaiveUtc<S>(d: Date<S>): (r: NaiveDate)
    ensures Date(r, d.offset) == d
  {
    d.date
  }

  /** The local view of `d` stays within the date range. */
  predicate HasLocalDate<Tz, S>(b: Backend<Tz, S>, d: Date<S>)
  {
    CanShift(d.date, b.localMinusUtc(d.offset))
  }

  /** `naive_local`: the UTC date moved by the offset; taking it back by
      the same offset gives the UTC date again. */
  function NaiveLocal<Tz, S>(b: Backend<Tz, S>, d: Date<S>): (r: NaiveDate)
    requires HasLocalDate(b, d)
    ensures r - NaiveUtc(d) == WholeDays(b.localMinusUtc(d.offset))
    ensures CanShift(r, -b.localMinusUtc(d.offset)) && SubDuration(r, b.localMinusUtc(d.offset)) == NaiveUtc(d)
  {
    WholeDaysNegate(b.localMinusUtc(d.offset));
    AddDuration(d.date, b.localMinusUtc(d.offset))
  }

  /** An offset of less than a day either way always has a local view,
      and it leaves the local date equal to the UTC date; an offset of a
      day or more moves it. */
  lemma SubDayOffsetKeepsDate<Tz, S>(b: Backend<Tz, S>, d: Date<S>)
    ensures -SecsPerDay < b.localMinusUtc(d.offset) < SecsPerDay ==> HasLocalDate(b, d)
    ensures HasLocalDate(b, d) ==>
      (NaiveLocal(b, d) == NaiveUtc(d) <==> -SecsPerDay < b.localMinusUtc(d.offset) < SecsPerDay)
  {
  }

  /** `timezone`: the zone rebuilt from the stored offset state. */
  function Timezone<Tz, S>(b: Backend<Tz, S>, d: Date<S>): Tz
  {
    b.fromState(d.offset)
  }

  /** The local view of a `Time`, which wraps around midnight. */
  function TimeNaiveLocal<Tz, S>(b: Backend<Tz, S>, t: Time<S>): (r: NaiveTime)
    ensures TimeSubDuration(r, b.localMinusUtc(t.offset)) == t.time
  {
    TimeAddSub(t.time, b.localMinusUtc(t.offset));
    TimeAddDuration(t.time, b.localMinusUtc(t.offset))
  }

  predicate HasLocalDateTime<Tz, S>(b: Backend<Tz, S>, dt: DateTime<S>)
  {
    DateTimeCanShift(dt.datetime, b.localMinusUtc(dt.offset))
  }

  /** The local view of a `DateTime`. */
  function DateTimeNaiveLocal<Tz, S>(b: Backend<Tz, S>, dt: DateTime<S>): (r: NaiveDateTime)
    requires HasLocalDateTime(b, dt)
    ensures Seconds(r) == Seconds(dt.datetime) + b.localMinusUtc(dt.offset)
    ensures DateTimeCanShift(r, -b.localMinusUtc(dt.offset))
    ensures DateTimeSubDuration(r, b.localMinusUtc(dt.offset)) == dt.datetime
  {
    DateTimeAddSub(dt.datetime, b.localMinusUtc(dt.offset));
    DateTimeAddDuration(dt.datetime, b.localMinusUtc(dt.offset))
  }
}
