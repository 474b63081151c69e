/**
 * The zone backend contract: the primitives every zone must provide.
 * A Rust trait with an associated state type becomes a record of
 * functions over the zone value `Tz` and its offset state `S`, passed to
 * every generic operation.
 */
module Backends {
  import opened Naive
  import opened LocalResults

  datatype Backend<!Tz, !S> = Backend(
    /** Rebuilds the zone from one of its offset states (`from_state`). */
    fromState: S -> Tz,
    /** The skew an offset state stands for (`local_minus_utc`). */
    localMinusUtc: S -> Duration,
    /** The debug rendering of an offset state. */
    showState: S -> string,
    /** Local-to-UTC resolution: may give a gap, one state or a fold. */
    stateFromLocalDate: (Tz, NaiveDate) -> LocalResult<S>,
    stateFromLocalTime: (Tz, NaiveTime) -> LocalResult<S>,
    stateFromLocalDatetime: (Tz, NaiveDateTime) -> LocalResult<S>,
    /** UTC-to-local resolution: always exactly one state. */
    stateFromUtcDate: (Tz, NaiveDate) -> S,
    stateFromUtcTime: (Tz, NaiveTime) -> S,
    stateFromUtcDatetime: (Tz, NaiveDateTime) -> S)

  /** Every candidate state `s` can take `local` back to UTC, `local - s`,
      without leaving the date range. */
  predicate DateShiftable<Tz, S>(b: Backend<Tz, S>, local: NaiveDate, r: LocalResult<S>)
  {
    match r
    case None => true
    case Single(s) => CanShift(local, -b.localMinusUtc(s))
    case Ambiguous(s1, s2) =>
      CanShift(local, -b.localMinusUtc(s1)) && CanShift(local, -b.localMinusUtc(s2))
  }

  predicate DateTimeShiftable<Tz, S>(b: Backend<Tz, S>, local: NaiveDateTime, r: LocalResult<S>)
  {
    match r
    case None => true
    case Single(s) => DateTimeCanShift(local, -b.localMinusUtc(s))
    case Ambiguous(s1, s2) =>
      DateTimeCanShift(local, -b.localMinusUtc(s1)) && DateTimeCanShift(local, -b.localMinusUtc(s2))
  }

  /** Resolving `local` through `tz` does not overflow the date range. */
  predicate LocalDateResolvable<Tz, S>(b: Backend<Tz, S>, tz: Tz, local: NaiveDate)
  {
    DateShiftable(b, local, b.stateFromLocalDate(tz, local))
  }

  predicate LocalDatetimeResolvable<Tz, S>(b: Backend<Tz, S>, tz: Tz, local: NaiveDateTime)
  {
    DateTimeShiftable(b, local, b.stateFromLocalDatetime(tz, local))
  }

  /** Taking UTC day `utc` to local time and resolving that local date
      again gives back the state UTC resolution chose. */
  ghost predicate UtcDateRoundTrips<Tz, S>(b: Backend<Tz, S>, tz: Tz, utc: NaiveDate)
  {
    var s := b.stateFromUtcDate(tz, utc);
    CanShift(utc, b.localMinusUtc(s)) ==>
      b.stateFromLocalDate(tz, AddDuration(utc, b.localMinusUtc(s))).Contains(s)
  }

  /** Taking local day `local` back to UTC through state `s` (when that
      stays in range) gives a UTC day that UTC resolution maps to that
      same state. */
  ghost predicate StateRoundTrips<Tz, S>(b: Backend<Tz, S>, tz: Tz, local: NaiveDate, s: S)
  {
    CanShift(local, -b.localMinusUtc(s)) ==>
    b.stateFromUtcDate(tz, SubDuration(local, b.localMinusUtc(s))) == s
  }

  /** Every candidate state of local day `local` round-trips. */
  ghost predicate LocalDateRoundTrips<Tz, S>(b: Backend<Tz, S>, tz: Tz, local: NaiveDate)
  {
    match b.stateFromLocalDate(tz, local)
    case None => true
    case Single(s) => StateRoundTrips(b, tz, local, s)
    case Ambiguous(s1, s2) => StateRoundTrips(b, tz, local, s1) && StateRoundTrips(b, tz, local, s2)
  }

  /** The zone's date resolution is self-consistent in both directions. */
  ghost predicate ConsistentDates<Tz, S>(b: Backend<Tz, S>, tz: Tz)
  {
    (forall u: NaiveDate :: UtcDateRoundTrips(b, tz, u)) &&
    (forall l: NaiveDate :: LocalDateRoundTrips(b, tz, l))
  }

  /** Every candidate of `r` rebuilds the zone `tz`. */
  ghost predicate AllRebuild<Tz, S>(b: Backend<Tz, S>, tz: Tz, r: LocalResult<S>)
  {
    match r
    case None => true
    case Single(s) => b.fromState(s) == tz
    case Ambiguous(s1, s2) => b.fromState(s1) == tz && b.fromState(s2) == tz
  }

  /** Every state the zone hands out for dates and date-times rebuilds the
      zone itself. */
  ghost predicate RebuildsFromStates<Tz, S>(b: Backend<Tz, S>, tz: Tz)
  {
    (forall u: NaiveDate :: b.fromState(b.stateFromUtcDate(tz, u)) == tz) &&
    (forall l: NaiveDate :: AllRebuild(b, tz, b.stateFromLocalDate(tz, l))) &&
    (forall l: NaiveDateTime :: AllRebuild(b, tz, b.stateFromLocalDatetime(tz, l)))
  }
}
