# Zoned dates and the offset-resolution protocol of rust-chrono, in Dafny

This project models the part of rust-chrono that links wall-clock ("local")
values to UTC values through a time zone, and the zoned `Date` built on top of it.

* `LocalResult<T>` is the outcome of resolving a local value. It is `None` for a
  gap, `Single(t)` for one result, or `Ambiguous(min, max)` for a fold. The model
  covers its projections `single`, `earliest`, `latest` and `unwrap`, and its `map`.
* The zone backend is the `Offset` trait of `src/offset/mod.rs`, called `TimeZone`
  in `src/date.rs`. Its offset state is `OffsetState` in mod.rs and `Offset` in
  date.rs. Dafny traits are not used. A backend is instead a record of functions,
  `Backends.Backend<Tz, S>`, over the zone value `Tz` and its state `S`. The fields
  are `fromState` (`from_state` / `from_offset`) and `localMinusUtc`. There is one
  `stateFromLocal*` per value kind (`state_from_local_*` / `offset_from_local_*`),
  which may give a gap or a fold. There is one `stateFromUtc*` per value kind,
  which is total. The third field, `showState`, is the state's debug rendering.
  Every generic
  operation takes the record as an argument.
* The constructors every backend gets for free are in module `Offsets`:
  `from_local_*` computes `local - local_minus_utc`, and `from_utc_*` is total. The
  field constructors `ymd_opt`, `yo_opt`, `isoywd_opt` and `hms*_opt` first
  validate the fields and then resolve through the zone. Their panicking forms are
  modelled too.
* Module `Dates` holds the zoned `Date` operations: `and_time` and the
  `and_hms*` family, `succ`/`pred`, `with_timezone`, `map_local` and the `with_*`
  mutators, equality, ordering and arithmetic. It also holds the `LocalResult<Date>`
  combinators, which keep only a unique result.
* Module `Zones` holds two concrete backends. `UTC1Y` is the test zone from
  `src/date.rs`, 365 days ahead of UTC. `TOY` moves its clocks a day forward and
  later a day back, so it has one local gap day and one local fold day.

The calendar-naive engine (`NaiveDate`, `NaiveTime`, `NaiveDateTime`, `Duration`)
is not part of this model. Module `Naive` stands in for it:

* A date is a day number from -262144-01-01 to +262143-12-31, with 0001-01-01 as day 1.
* A duration is a whole number of seconds.
* A time of day is a second of the day plus a nanosecond fraction. A fraction of
  10^9 or more marks a leap second.
* Adding a duration to a date moves it by the duration's whole days, truncated
  toward zero.
* Time-of-day arithmetic wraps around midnight. Date-time arithmetic is on seconds.
* Field validation (`from_ymd_opt`, ...), field mutation (`with_year`, ...) and the
  debug texts of naive values are parameters, the record `Naive.Calendar`. Every
  property is therefore proved for any calendar engine.

Where `NaiveDate + Duration` in the source would panic on overflow, the model has a
precondition. Examples are `naive_local`, `from_local_date` and `date + duration`.
The predicates for these are `HasLocalDate`, `LocalDateResolvable`,
`LocalDatetimeResolvable` and `CanShift`.

A `Date`'s local view is `NaiveDate + Duration` (src/date.rs:195-197). That uses
only the offset's whole days, so a sub-day offset such as +09:00 leaves the local
date equal to the UTC date.

## Model

| member | source | states |
|---|---|---|
| `LocalResults.LocalResult.ToSingle` | src/offset/mod.rs:48-51 | a value comes back exactly when the outcome is `Single`, and it is that value; a gap and a fold both give nothing |
| `LocalResults.LocalResult.Earliest` | src/offset/mod.rs:53-56 | nothing only for a gap; the unique value, or the lower end `min` of a fold |
| `LocalResults.LocalResult.Latest` | src/offset/mod.rs:58-61 | nothing only for a gap; the unique value, or the upper end `max` of a fold |
| `LocalResults.LocalResult.Map` | src/offset/mod.rs:63-70 | the variant is preserved and `f` is applied to the single value and to both ends of a fold |
| `LocalResults.LocalResult.Unwrap` | src/offset/mod.rs:147-157 | defined only on `Single` (a gap or fold panics); the value is what `single`, `earliest` and `latest` all return |
| `LocalResults.SingleIsUnanimous` | src/offset/mod.rs:48-61 | on a unique outcome the three projections agree; `earliest` and `latest` differ only on a fold |
| `LocalResults.ProjectionsAreCandidates` | src/offset/mod.rs:34-61 | every projection returns one of the outcome's candidates, and every candidate is its earliest or latest |
| `LocalResults.MapIdentity` | src/offset/mod.rs:63-70 | mapping by the identity changes nothing |
| `LocalResults.MapCompose` | src/offset/mod.rs:63-70 | mapping by `f` then `g` is mapping by their composition |
| `LocalResults.MapCommutesWithProjections` | src/offset/mod.rs:47-70 | `single`/`earliest`/`latest` of a mapped outcome are the mapped projections, and candidates map to candidates |
| `Offsets.FromLocalDate` | src/offset/mod.rs:335-340 | the result has the variant of `state_from_local_date` with exactly its states as offsets, and every candidate date shows the requested local date as its `naive_local` |
| `Offsets.FromLocalTime` | src/offset/mod.rs:342-347 | same variant and states as `state_from_local_time`; every candidate's local view is the requested local time |
| `Offsets.FromLocalDatetime` | src/offset/mod.rs:349-354 | same variant and states as `state_from_local_datetime`; every candidate's local view is the requested local date-time |
| `Offsets.FromUtcDate` | src/offset/mod.rs:365-369 | total; the date stores exactly the given UTC date with the state UTC resolution gives |
| `Offsets.FromUtcTime` | src/offset/mod.rs:371-375 | total; stores exactly the given UTC time with its resolved state |
| `Offsets.FromUtcDatetime` | src/offset/mod.rs:377-381 | total; stores exactly the given UTC date-time with its resolved state |
| `Offsets.YmdOpt` | src/offset/mod.rs:181-193 | invalid year/month/day gives `None`; otherwise the zone's resolution of that local date, each candidate showing it |
| `Offsets.YoOpt` | src/offset/mod.rs:206-218 | invalid year/ordinal gives `None`; otherwise the zone's resolution of that local date |
| `Offsets.IsoywdOpt` | src/offset/mod.rs:233-247 | invalid ISO week date gives `None`; otherwise the zone's resolution of that local date |
| `Offsets.HmsOpt` | src/offset/mod.rs:256-264 | invalid hour/minute/second gives `None`; otherwise the zone's resolution of that local time, each candidate showing it |
| `Offsets.HmsMilliOpt` | src/offset/mod.rs:274-283 | as `hms_opt`, with milliseconds validated by the engine (leap second allowed there) |
| `Offsets.HmsMicroOpt` | src/offset/mod.rs:293-302 | as `hms_opt`, with microseconds |
| `Offsets.HmsNanoOpt` | src/offset/mod.rs:312-321 | as `hms_opt`, with nanoseconds |
| `Offsets.Ymd` | src/offset/mod.rs:170-179 | callable only when the fields resolve uniquely; the fields are valid, the date shows that local date and its state is the zone's unique state for it |
| `Offsets.Yo` | src/offset/mod.rs:195-204 | as `ymd`, for year and ordinal |
| `Offsets.Isoywd` | src/offset/mod.rs:220-231 | as `ymd`, for an ISO week date |
| `Offsets.Hms` | src/offset/mod.rs:249-254 | callable only on a unique resolution; the time shows the requested local time with the zone's unique state |
| `Offsets.HmsMilli` | src/offset/mod.rs:266-272 | as `hms`, with milliseconds |
| `Offsets.HmsMicro` | src/offset/mod.rs:285-291 | as `hms`, with microseconds |
| `Offsets.HmsNano` | src/offset/mod.rs:304-310 | as `hms`, with nanoseconds |
| `Offsets.DateOutcome` | src/offset/mod.rs:188-247 | a date field constructor gives `None` iff the fields are invalid or the zone has a gap there; `Ambiguous` iff the fields are valid and the zone has a fold, so only the zone can make it ambiguous |
| `Offsets.TimeOutcome` | src/offset/mod.rs:259-321 | the same two-layer outcome for the time field constructors |
| `Offsets.UtcLocalRoundTrip` | src/offset/mod.rs:335-369 | under a self-consistent zone, a date made from UTC and shown locally resolves back to a set of candidates containing it |
| `Offsets.LocalUtcRoundTrip` | src/offset/mod.rs:335-369 | under a self-consistent zone, every candidate of a local date is reproduced exactly by `from_utc_date` of its UTC date |
| `Zoned.NaiveUtc` | src/date.rs:187-191 | the stored UTC date; `from_utc` of it and the offset state rebuilds the date |
| `Zoned.SubDayOffsetKeepsDate` | src/offset/mod.rs:170-193 | an offset of less than a day either way always has a local view and leaves the local date equal to the UTC date; an offset of a day or more moves it |
| `Offsets.ResolvedDatesRebuildZone` | src/date.rs:174-178 | `timezone` of a date made by the zone, from UTC or from any local candidate, is that zone, when every state it hands out rebuilds it |
| `Zoned.NaiveLocal` | src/date.rs:193-197 | the local date is the UTC date moved by the offset's whole days, and moving it back gives `naive_utc` |
| `Dates.AndTime` | src/date.rs:45-53 | a date-time comes back exactly when the date's own zone resolves the local date and `time` uniquely; it then shows that local date and time, with the unique state |
| `Dates.AndTimeKeepsOffset` | src/date.rs:45-53 | the result keeps the date's own offset state exactly when the zone resolves the combined local value uniquely to that state |
| `Dates.AndHmsOpt` | src/date.rs:64-71 | nothing for an invalid time, whatever the date (its local view is not computed); otherwise what `and_time` gives for the validated time |
| `Dates.AndHmsMilliOpt` | src/date.rs:83-92 | as `and_hms_opt`, with milliseconds |
| `Dates.AndHmsMicroOpt` | src/date.rs:104-113 | as `and_hms_opt`, with microseconds |
| `Dates.AndHmsNanoOpt` | src/date.rs:125-134 | as `and_hms_opt`, with nanoseconds |
| `Dates.AndHms` | src/date.rs:55-62 | callable only when a result exists; the time fields are valid, the result shows the date's local date with that time, and its state is the zone's unique state for that local value |
| `Dates.AndHmsMilli` | src/date.rs:73-81 | as `and_hms`, with milliseconds: valid fields, that local value, the zone's unique state |
| `Dates.AndHmsMicro` | src/date.rs:94-102 | as `and_hms`, with microseconds: valid fields, that local value, the zone's unique state |
| `Dates.AndHmsNano` | src/date.rs:115-123 | as `and_hms`, with nanoseconds: valid fields, that local value, the zone's unique state |
| `Dates.ResultAndTime` | src/offset/mod.rs:73-85 | a gap or a fold gives `None`; on a unique date the result is `Single` exactly when that date's `and_time` succeeds, and never `Ambiguous` |
| `Dates.ResultAndHmsOpt` | src/offset/mod.rs:87-98 | as `ResultAndTime`, through `and_hms_opt` |
| `Dates.ResultAndHmsMilliOpt` | src/offset/mod.rs:100-113 | as `ResultAndTime`, through `and_hms_milli_opt` |
| `Dates.ResultAndHmsMicroOpt` | src/offset/mod.rs:115-128 | as `ResultAndTime`, through `and_hms_micro_opt` |
| `Dates.ResultAndHmsNanoOpt` | src/offset/mod.rs:130-143 | as `ResultAndTime`, through `and_hms_nano_opt` |
| `Dates.SuccOpt` | src/date.rs:144-150 | `None` exactly at the last representable date; otherwise the next UTC date with the offset state unchanged |
| `Dates.PredOpt` | src/date.rs:160-166 | `None` exactly at the first representable date; otherwise the previous UTC date with the offset state unchanged |
| `Dates.Succ` | src/date.rs:136-142 | callable below the last date; the next UTC date, same state |
| `Dates.Pred` | src/date.rs:152-158 | callable above the first date; the previous UTC date, same state |
| `Dates.PredOfSucc` | src/date.rs:144-166 | `pred_opt(succ_opt(d)) == d` for every date but the last |
| `Dates.SuccOfPred` | src/date.rs:144-166 | `succ_opt(pred_opt(d)) == d` for every date but the first |
| `Dates.SuccStepsLocalDate` | src/date.rs:144-150 | stepping keeps the state, so the local date advances by one day as well |
| `Dates.WithTimezone` | src/date.rs:180-185 | the UTC date is unchanged and the state is the target zone's UTC resolution of it |
| `Dates.WithTimezoneKeepsInstant` | src/date.rs:180-185 | the retargeted date compares equal to the original; its zone is the target zone when states rebuild it; under a consistent target its local date resolves back to it |
| `Dates.MapLocal` | src/date.rs:200-204 | nothing when the mutation fails; otherwise a date exactly when the date's own zone resolves the mutated local date uniquely, showing that local date |
| `Dates.WithYear` | src/date.rs:226-229 | `map_local` with the engine's `with_year` |
| `Dates.WithMonth` | src/date.rs:231-234 | `map_local` with `with_month` |
| `Dates.WithMonth0` | src/date.rs:236-239 | `map_local` with `with_month0` |
| `Dates.WithDay` | src/date.rs:241-244 | `map_local` with `with_day` |
| `Dates.WithDay0` | src/date.rs:246-249 | `map_local` with `with_day0` |
| `Dates.WithOrdinal` | src/date.rs:251-254 | `map_local` with `with_ordinal` |
| `Dates.WithOrdinal0` | src/date.rs:256-259 | `map_local` with `with_ordinal0` |
| `Dates.Eq` | src/date.rs:262-264 | dates of any two zones are equal iff their UTC dates are |
| `Dates.EqIsUtcOnly` | src/date.rs:262-267 | dates of any two zones are equal iff their UTC dates are, whatever their offsets; equality is an equivalence |
| `Dates.Cmp` | src/date.rs:275-277 | `Less`, `Equal` or `Greater` exactly as the UTC dates compare, `Equal` being `==` |
| `Dates.CmpIsTotalOrder` | src/date.rs:275-277 | `cmp` orders by UTC date: `Equal` iff `==`, antisymmetric, transitive |
| `Dates.PartialCmp` | src/date.rs:269-273 | always defined and equal to `cmp` |
| `Dates.Add` | src/date.rs:283-289 | the UTC date moves by the duration's whole days; the offset state is kept |
| `Dates.Sub` | src/date.rs:297-302 | the UTC date moves back by the duration's whole days; the offset state is kept |
| `Dates.SubDate` | src/date.rs:291-295 | the difference of the UTC dates in whole days, whatever the zones and offsets |
| `Dates.SubUndoesAdd` | src/date.rs:283-302 | `(d + dur) - dur == d` |
| `Dates.AddDifference` | src/date.rs:283-295 | `b + (a - b)` compares equal to `a` |
| `Dates.AddMovesLocalDate` | src/date.rs:283-289 | arithmetic keeps the state, so the local date moves by the same days as the UTC date |
| `Dates.Debug` | src/date.rs:304-308 | the text is the local date's debug text followed immediately by the offset state's |
| `Dates.DebugDateTime` | src/date.rs:366-369 | a date-time renders as its local date-time's debug text followed immediately by the offset state's |
| `Zones.Utc1yIsConsistent` | src/date.rs:326-354 | the 365-day test zone round-trips UTC and local dates and is rebuilt from its state |
| `Zones.WeirdOffset` | src/date.rs:360-370 | under the 365-day zone, `ymd` keeps the local date, stores the date 365 days earlier (for 2012-02-29, 2011-03-01), renders as the date's text followed by `+8760:00`; `and_hms(5, 6, 7)` keeps the local date and that time and renders likewise |
| `Zones.Utc1yAndTimeKeepsOffset` | src/date.rs:326-358 | in the one-year test zone `and_time` always succeeds and keeps the date's offset |
| `Zones.ToyAndTimeAtFoldFails` | src/date.rs:45-53 | a valid date whose local view is a repeated day gets nothing from `and_time`, for every time of day |
| `Zones.ToyIsConsistent` | src/offset/mod.rs:323-363 | a zone with a gap day and a fold day still satisfies the backend's round-trip contract in both directions |
| `Zones.ToyGap` | src/offset/mod.rs:37-39 | the local day the clocks skip resolves to `None` |
| `Zones.ToyFold` | src/offset/mod.rs:42-44 | the repeated local day resolves to `Ambiguous`, its ends a UTC day apart, `earliest` being the earlier |
| `Zones.ToyMutationIntoTransitionFails` | src/date.rs:241-244 | `with_day` landing on the skipped or repeated local day yields nothing, though the starting date is valid |

## Findings

| source | as written | input that shows it | evidently intended | confidence | as-written member | corrected member |
|---|---|---|---|---|---|---|
| src/date.rs:45-53 (also src/date.rs:56-134, src/offset/mod.rs:73-143) | documented as "the offset in the current date is preserved", but the code re-resolves the local date and time through `timezone()` and keeps only a unique result | a zone that repeats local day F: the date it makes from UTC day F shows F, so `and_time` gives `None` for every time and `and_hms` panics on valid fields | the offset is kept exactly when the zone resolves the combined local value uniquely to the date's own state, which always holds in a zone with one state | not executed | `Zones.ToyAndTimeAtFoldFails` | `Dates.AndTimeKeepsOffset` |

## Left out

- The calendar-naive engine is not part of this model. That covers proleptic Gregorian field validation, ISO weeks, ordinals, field extraction and its renderings. Module `Naive` stands in for it with day numbers, whole-second durations and the `Calendar` record of functions.
- The `Datelike` getters (`year`, `month`, `day`, `ordinal`, `weekday`, `isoweekdate` and their `0` forms, src/date.rs:216-224) only read the local view through the naive engine. The local view itself is `Zoned.NaiveLocal`.
- `Zoned.NaiveLocal`, `Dates.Add`, `Dates.Sub`: these use the whole days of a duration, truncated toward zero, because that is how the naive engine adds a duration to a date. Sub-second durations and chrono's 64-bit duration bounds are not modelled.
- The fraction of a time of day is carried unchanged through time and date-time arithmetic. The engine's own leap-second normalisation is not modelled.
- The concrete backends `utc`, `fixed` and `local` are not part of this model. `local` queries the host system. They are replaced by `Zones.UTC1Y` and `Zones.TOY`.
- `TOY`: a time of day without a date resolves to the standard state, because a gap or fold needs a date to locate it.
- `format` / `DelayedFormat` (src/date.rs:206-213) is left out, and so is the human-readable `String` rendering (src/date.rs:310-314). The debug rendering is `Dates.Debug`: the naive engine's text followed by the state's text. The engine's exact date text is a parameter.
- `Hash` (src/date.rs:279-281) is left out. It feeds an external hasher, using the UTC date only.
- Panic messages ("No such local time", "Ambiguous local time, ranging from ...", "invalid time", "out of bound") are left out. Each panic is a precondition instead.
- `Time<Tz>` and `DateTime<Tz>` are not part of this model beyond what this core needs. That is the pair of UTC value and state, its local view, and its debug rendering.
- The `MIN`/`MAX` constants of `Date<UTC>` (src/date.rs:30-33) appear only as the bounds `Naive.MinDay` and `Naive.MaxDay`.
