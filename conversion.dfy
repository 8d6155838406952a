/**
 * The integer part of timestamp conversion in `window.timestampAPI`
 * (preload.js): formatTimestamp and the batch convertToMultipleTimezones.
 * The locale strings (standard, date, time, weekday, iso, timezoneOffset,
 * timezoneShort) are not modelled; `formattable` is the set of zone ids for
 * which the runtime's zoned formatters succeed and `nowMs` the clock reading
 * used for the relative description.
 */
module Conversion {
  import opened Wrappers
  import Timestamp
  import RelativeTime

  /** ECMAScript's time value limit: a Date holds an instant only when |ms| <= 8.64e15. */
  const MaxDateMs: int := 8_640_000_000_000_000

  datatype FormatError =
    | InvalidTimestamp              // the instant is not a representable Date
    | TimezoneFailure(timezone: string)  // formatting in this zone threw

  /** The fields of a formatting result that the model computes. */
  datatype Formatted = Formatted(timezone: string, unix: int, unixMs: int, relative: RelativeTime.Relative)

  /** `Math.floor(ms / 1000)`: the whole seconds at or before the instant. */
  function FloorSeconds(ms: int): (s: int)
    ensures s * 1000 <= ms < s * 1000 + 1000
  {
    ms / 1000
  }

  /**
   * formatTimestamp: normalise to milliseconds, reject an instant outside the
   * Date range, then format in the zone, turning a formatter failure into an
   * error that names the zone.
   */
  function FormatTimestamp(t: int, unit: string, timezone: string, formattable: set<string>, nowMs: int)
    : (r: Result<Formatted, FormatError>)
    ensures var ms := Timestamp.Normalize(t, unit);
      && (r == Err(InvalidTimestamp) <==> RelativeTime.Abs(ms) > MaxDateMs)
      && (r == Err(TimezoneFailure(timezone)) <==> RelativeTime.Abs(ms) <= MaxDateMs && timezone !in formattable)
      && (r.Ok? <==> RelativeTime.Abs(ms) <= MaxDateMs && timezone in formattable)
      && (r.Ok? ==>
            && r.value.timezone == timezone
            && r.value.unixMs == ms
            && r.value.unix * 1000 <= ms < r.value.unix * 1000 + 1000
            && r.value.relative == RelativeTime.Classify(ms - nowMs))
  {
    var ms := Timestamp.Normalize(t, unit);
    if ms < -MaxDateMs || ms > MaxDateMs then Err(InvalidTimestamp)
    else if timezone !in formattable then Err(TimezoneFailure(timezone))
    else Ok(Formatted(timezone, FloorSeconds(ms), ms, RelativeTime.Classify(ms - nowMs)))
  }

  /** In seconds, unix gives back the input and unixMs is a thousand times it. */
  lemma SecondsRoundTrip(t: int, timezone: string, formattable: set<string>, nowMs: int)
    requires FormatTimestamp(t, "s", timezone, formattable, nowMs).Ok?
    ensures FormatTimestamp(t, "s", timezone, formattable, nowMs).value.unix == t
    ensures FormatTimestamp(t, "s", timezone, formattable, nowMs).value.unixMs == t * 1000
  {
    var f := FormatTimestamp(t, "s", timezone, formattable, nowMs).value;
    assert f.unix * 1000 <= t * 1000 < f.unix * 1000 + 1000;
  }

  /** 1700000000 seconds in UTC: unix 1700000000, unixMs 1700000000000. */
  lemma SecondsExample(nowMs: int)
    ensures FormatTimestamp(1700000000, "s", "UTC", {"UTC"}, nowMs).Ok?
    ensures FormatTimestamp(1700000000, "s", "UTC", {"UTC"}, nowMs).value.unix == 1700000000
    ensures FormatTimestamp(1700000000, "s", "UTC", {"UTC"}, nowMs).value.unixMs == 1700000000000
  {
    SecondsRoundTrip(1700000000, "UTC", {"UTC"}, nowMs);
  }

  /** Formatting an already-normalised value in milliseconds is formatting the original. */
  lemma NormalizeOnce(t: int, unit: string, timezone: string, formattable: set<string>, nowMs: int)
    ensures FormatTimestamp(Timestamp.Normalize(t, unit), "ms", timezone, formattable, nowMs)
         == FormatTimestamp(t, unit, timezone, formattable, nowMs)
  {
  }

  /**
   * convertToMultipleTimezones: normalise once, then format per zone; a zone
   * that fails gets its error in its own slot and the batch goes on.
   */
  method ConvertToMultipleTimezones(t: int, unit: string, timezones: seq<string>, formattable: set<string>, nowMs: int)
    returns (results: map<string, Result<Formatted, FormatError>>)
    ensures results.Keys == set z | z in timezones
    ensures forall z :: z in results ==> results[z] == FormatTimestamp(t, unit, z, formattable, nowMs)
  {
    var ms := Timestamp.Normalize(t, unit);
    results := map[];
    for i := 0 to |timezones|
      invariant results.Keys == set z | z in timezones[..i]
      invariant forall z :: z in results ==> results[z] == FormatTimestamp(ms, "ms", z, formattable, nowMs)
    {
      var tz := timezones[i];
      assert timezones[..i + 1] == timezones[..i] + [tz];
      results := results[tz := FormatTimestamp(ms, "ms", tz, formattable, nowMs)];
    }
    assert timezones[..|timezones|] == timezones;
    forall z | z in results ensures results[z] == FormatTimestamp(t, unit, z, formattable, nowMs) {
      NormalizeOnce(t, unit, z, formattable, nowMs);
    }
  }

  /**
   * Every successful slot of a batch carries the one normalised instant: the
   * same unixMs and the same whole seconds.
   */
  lemma BatchSlotsAgree(t: int, unit: string, a: string, b: string, formattable: set<string>, nowMs: int)
    requires FormatTimestamp(t, unit, a, formattable, nowMs).Ok?
    requires FormatTimestamp(t, unit, b, formattable, nowMs).Ok?
    ensures FormatTimestamp(t, unit, a, formattable, nowMs).value.unixMs
         == FormatTimestamp(t, unit, b, formattable, nowMs).value.unixMs
    ensures FormatTimestamp(t, unit, a, formattable, nowMs).value.unix
         == FormatTimestamp(t, unit, b, formattable, nowMs).value.unix
  {
  }

  /** A good zone and an unknown one: a result for the first, an error naming the second. */
  lemma MixedBatchExample(t: int, unit: string, nowMs: int)
    requires RelativeTime.Abs(Timestamp.Normalize(t, unit)) <= MaxDateMs
    ensures FormatTimestamp(t, unit, "UTC", {"UTC"}, nowMs).Ok?
    ensures FormatTimestamp(t, unit, "Not/AZone", {"UTC"}, nowMs) == Err(TimezoneFailure("Not/AZone"))
  {
  }
}
