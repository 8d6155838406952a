# Timestamp converter: a Dafny model of `window.timestampAPI`

This project models the logic that the timestamp-converter plugin's preload
script exposes to its panel (`preload.js`):

- the validity check `isValidTimestamp`, including its range of
  1970-01-01 to 2100-01-01 and its treatment of zero;
- the bucket choice of `_getRelativeTime`, as a unit and a signed count;
- the selector list built by `getTimezones` and `_createTimezoneOption`,
  with `_getTimezoneFriendlyName`;
- the integer fields of `formatTimestamp` (`unix`, `unixMs`, and whether the
  call fails) and the batch `convertToMultipleTimezones`;
- the activation handler `handlePluginEnter`, as a decision on an abstract
  panel state.

The modules follow the script's parts:

| module | file | models |
|---|---|---|
| `Wrappers` | `wrappers.dfy` | `Option` and `Result` |
| `Timestamp` | `timestamp.dfy` | unit normalisation, `isValidTimestamp`, and the calendar fact behind its upper bound |
| `RelativeTime` | `relative_time.dfy` | `_getRelativeTime`: its loop as a method, proved equal to a threshold definition `Classify` |
| `JsSort` | `js_sort.dfy` | the string order of `Array.prototype.sort()` with no comparator, and a sort by it |
| `Timezones` | `timezones.dfy` | `getTimezones`, `_createTimezoneOption`, `_getTimezoneFriendlyName` |
| `Conversion` | `conversion.dfy` | `formatTimestamp` and `convertToMultipleTimezones` |
| `PluginEnter` | `plugin_enter.dfy` | `handlePluginEnter` and its `/^\d{10,13}$/` payload check |

The runtime's services become parameters:

- The clock reading is a parameter `nowMs`.
- The zone enumeration `Intl.supportedValuesOf('timeZone')` is a sequence `all`.
- Which zones the runtime can format is a set `formattable`. A zone outside it
  is one whose `Intl.DateTimeFormat` throws.
- The offset text that `formatToParts` would produce is an opaque function
  `offset`.

Timestamps are integers. The unit is the string the caller passes: exactly
`"s"` means seconds, scaled by 1000, and every other string means
milliseconds. This is the `unit === 's'` test of the script.

The selector entry's `label` property is the field `text` of `TzOption`,
because `label` is a reserved word in Dafny. The separator is the only entry
with `disabled` true. The other entries have no `disabled` property in the
script, which the model writes as `false`.

The range test of `isValidTimestamp` is documented as "between 1970-01-01 and
2100-01-01" (preload.js:231). It admits `minTime = 0` through `ms >= minTime`
(preload.js:232-235), so the epoch itself is meant to be valid. The guard
`!timestamp` on preload.js:226 is true for `0`, however, so `0` is rejected
before the range test runs. The model follows the code
(`Timestamp.IsValidTimestamp`). The difference is recorded under
"## Findings", together with the range check that was evidently meant.

## Model

| member | source | states |
|---|---|---|
| Timestamp.Normalize | preload.js:228-229 | exactly the unit `"s"` scales by 1000; every other unit leaves the number as it is |
| Timestamp.IsValidTimestamp | preload.js:225-236 | as written: valid iff the value is non-zero and its millisecond form lies in [0, 4102444800000] |
| Timestamp.ValidRangePerUnit | preload.js:225-236 | the accepted inputs are exactly 1..4102444800 in seconds and 1..4102444800000 in milliseconds |
| Timestamp.ZeroIsRejected | preload.js:226 | 0 lies inside the range in either unit and is still rejected |
| Timestamp.IsInValidRange | preload.js:231-235 | corrected check: valid iff the millisecond form lies in [MinTime, MaxTime], with 0 included |
| Timestamp.ValidityDiffersOnlyAtZero | preload.js:226-235 | the written check and the corrected one disagree exactly at 0 |
| Timestamp.DaysSinceEpochClosedForm | preload.js:233 | counting days year by year from 1970 agrees with the Gregorian leap-year closed form |
| Timestamp.MaxTimeIsStartOf2100 | preload.js:231-233 | the bound 4102444800000 is exactly midnight UTC, 2100-01-01 |
| RelativeTime.GetRelativeTime | preload.js:309-331 | the scan of the interval table gives `Classify(date - now)`: the first unit the distance reaches, or "just now" |
| RelativeTime.JustNowIff | preload.js:324-331 | "just now" exactly when the distance is under one second |
| RelativeTime.BucketIsFirstNonZero | preload.js:324-328 | a bucket's count has the floor count of its unit as magnitude; that count is at least 1; every larger unit's floor count is 0 |
| RelativeTime.CountSign | preload.js:327 | the count is positive exactly for a future instant and negative exactly for a past one |
| RelativeTime.BucketUnique | preload.js:324-328 | any unit with floor count ≥ 1 whose larger units all have floor count 0 is the unit chosen |
| RelativeTime.NinetyDaysAgo | preload.js:315-328 | ninety days in the past is the month bucket with count -3 (30-day months) |
| JsSort.LexLe | preload.js:143 | the comparison of `.sort()` with no comparator; a prefix sorts no later than any string it starts |
| JsSort.LexLeFirstDifference | preload.js:143 | a sorts no later than b exactly when a is a prefix of b, or is smaller at the first difference |
| JsSort.LexLeReflexive | preload.js:143 | the default string order is reflexive |
| JsSort.LexLeTotal | preload.js:143 | the default string order is total |
| JsSort.LexLeAntisymmetric | preload.js:143 | the default string order is antisymmetric |
| JsSort.LexLeTransitive | preload.js:143 | the default string order is transitive |
| JsSort.Insert | preload.js:143 | insertion into a sorted list keeps it sorted and adds exactly the one element |
| JsSort.Sort | preload.js:141-143 | `.sort()` returns a sorted permutation of its input |
| JsSort.SortedPermutationUnique | preload.js:143 | two sorted permutations of each other are equal, so the sorted order is determined |
| JsSort.SortIsTheSortedPermutation | preload.js:141-143 | Sort agrees with every sorted permutation of its input |
| Timezones.Region | preload.js:172 | `split('/')[0]`: the prefix before the first '/', which holds no '/' |
| Timezones.LastSegment | preload.js:205 | `split('/').pop()`: the suffix after the last '/', which holds no '/' |
| Timezones.ReplaceUnderscores | preload.js:205 | every '_' becomes ' ' and every other character stays, position by position |
| Timezones.FriendlyName | preload.js:186-206 | the table name for a listed zone; otherwise a name with neither '/' nor '_' |
| Timezones.FriendlyNameFallback | preload.js:205 | outside the table, the name is the last segment with '_' shown as ' ', character by character |
| Timezones.FriendlyNamesArePopular | preload.js:187-203 | the named zones are exactly the popular zones |
| Timezones.PopularDistinct | preload.js:101-117 | the popular list has no repeated zone |
| Timezones.CreateOption | preload.js:160-183 | an option exactly for a formattable zone: value the id, group its region, label the friendly name and offset, not disabled |
| Timezones.GetTimezones | preload.js:95-150 | the two loops and the separator build exactly `TimezoneList`: the popular options, then the separator, then the other options |
| Timezones.AppendOptions | preload.js:145-148 | the second loop appends the options of exactly the formattable zones, in order |
| Timezones.TimezoneListShape | preload.js:123-148 | the list is the popular zones' options, then the separator, then the other zones' options, position by position |
| Timezones.OptionEntries | preload.js:126-177 | each entry's value is its zone; the separator is the only disabled entry; every other entry is grouped by its region and labelled with the friendly name and offset |
| Timezones.PopularZonesInFixedOrder | preload.js:126-131 | the first part holds exactly the popular zones that are enumerated and formattable, in the popular list's order |
| Timezones.OtherZonesSorted | preload.js:141-148 | the last part holds exactly the enumerated, formattable, non-popular zones, in ascending string order |
| Timezones.PopularZonesDistinct | preload.js:126-131 | no popular zone appears twice |
| Timezones.OtherZonesDistinct | preload.js:141-148 | given a duplicate-free enumeration, no other zone appears twice |
| Timezones.NoDuplicateValues | preload.js:123-150 | given a duplicate-free enumeration, no zone id appears twice in the list |
| Conversion.FloorSeconds | preload.js:297 | `Math.floor(ms / 1000)`: the whole seconds at or before the instant |
| Conversion.FormatTimestamp | preload.js:239-306 | fails with InvalidTimestamp iff the instant is outside the Date range; fails naming the zone iff the zone cannot be formatted; otherwise unixMs is the instant, unix its floor in seconds, relative the bucket of its distance from now |
| Conversion.SecondsRoundTrip | preload.js:240-298 | for a seconds input, unix gives the input back and unixMs is a thousand times it |
| Conversion.SecondsExample | preload.js:297-298 | 1700000000 s in UTC gives unix 1700000000 and unixMs 1700000000000 |
| Conversion.NormalizeOnce | preload.js:376-381 | formatting the normalised milliseconds with unit "ms" is formatting the original input |
| Conversion.ConvertToMultipleTimezones | preload.js:375-389 | one slot per requested zone and no other; each slot holds that zone's formatting result or its error |
| Conversion.BatchSlotsAgree | preload.js:376-381 | all successful slots of a batch carry the same unixMs and unix |
| Conversion.MixedBatchExample | preload.js:379-385 | a good zone gets a result and an unknown zone gets an error naming it |
| PluginEnter.MatchDigits | preload.js:54 | `\d{lo,hi}` on the whole string: true iff the length is within [lo, hi] and every character is a digit |
| PluginEnter.PayloadMatches | preload.js:54 | `/^\d{10,13}$/` holds iff the payload is 10 to 13 decimal digits |
| PluginEnter.DecimalString | preload.js:60 | `toString()` of a non-negative integer: non-empty, all digits, no leading zero |
| PluginEnter.DecimalRoundTrip | preload.js:60 | reading the decimal text back gives the number |
| PluginEnter.DecimalLength | preload.js:60 | a number of k digits has a decimal text of length k |
| PluginEnter.ClockTextMatchesPattern | preload.js:54-60 | a 13-digit clock reading, written out as "currentTime" does, passes the "convert" payload check |
| PluginEnter.ClearState | preload.js:27-47 | neutral border, toast hidden if present, the three primary result fields blanked to "-" where present, all else unchanged |
| PluginEnter.HandlePluginEnter | preload.js:20-64 | without the field or button nothing changes; otherwise the result is `ClearState` of the panel except for the field and the click count, and Convert is clicked with the payload for a matching "convert" and with the clock text for "currentTime"; the field and clicks are untouched otherwise |
| PluginEnter.ConvertAtMostOnce | preload.js:52-62 | one activation clicks Convert at most once, and does so exactly for "currentTime" or a matching "convert" |
| PluginEnter.HandleTwiceSameFields | preload.js:27-62 | handling the same action again leaves every field except the click count as it was |
| PluginEnter.ConvertExample | preload.js:52-57 | a ten-digit "convert" payload is entered and converted |
| PluginEnter.ShortPayloadIgnored | preload.js:54 | a nine-digit "convert" payload changes neither the field nor the clicks |

## Left out

- Locale strings: `standard`, `date`, `time`, `iso`, `weekday`, `timezoneOffset`, `timezoneShort` and the `Intl.RelativeTimeFormat` phrase are not modelled. The model stops at the bucket (unit and signed count), and the offset of an option is the opaque function `offset`.
- RelativeTime.GetRelativeTime: the `catch` that returns '' when the relative-time formatter itself cannot be built is not modelled, because it depends only on the runtime.
- Conversion.FormatTimestamp: the error message text is not modelled. The error only says which case occurred and which zone failed.
- Conversion.ConvertToMultipleTimezones: the model uses one clock reading for the whole batch, while the script reads the clock again for each zone.
- Timezones.GetTimezones: the `catch` that falls back to `_getFallbackTimezones` when zone enumeration is unavailable is not modelled, and neither is that fallback list (preload.js:152-156, 209-222). The enumeration is a parameter, so it is always present.
- Timezones.FriendlyName: table lookups with inherited object keys (for example `"constructor"`) are not modelled. The table is a map with only its fifteen entries.
- JsSort.LexLe: JavaScript compares UTF-16 code units, and Dafny compares characters. The two orders agree on the ASCII zone ids of the time-zone database but not on every string.
- Timestamp.IsValidTimestamp: does not model `parseInt` of the number's text (preload.js:228). For integers of 10^21 and more that text is exponential ("1e+21"), so the script reads it as its leading digit and accepts, for example, 10^21 in milliseconds as 1. The model, and `Timestamp.ValidRangePerUnit` with it, rejects every value above the range.
- `isNaN` and `parseInt` coercion of non-numeric or fractional input are not modelled. Inputs are integers and the model's arithmetic is exact, while the script's Numbers are doubles that round above 2^53.
- `handlePluginEnter`: the 100 ms `setTimeout`, the `try`/`catch` around clearing, and the click's own effect are not modelled. The panel is an abstract value updated by a function rather than DOM mutation, and a click is counted.
- `handlePluginEnter`: a payload that is not a string is not modelled. The payload is a string, with "" standing for an absent one.
- `getCurrentTimestamp`, `dateToTimestamp`, `getUserTimezone`, `checkTimezoneSupport`, `getPluginInfo` (preload.js:90-92, 338-372, 392-399) are not modelled. They are clock reads, date-string parsing by the runtime, and environment probes.
- Host bridge registration, the `getLastPluginEnterAction` replay and console logging (preload.js:8-14, 66-85) are not modelled. They are I/O.
- main.js is not part of this model.

## Findings

| source | as written | input that shows it | evidently intended | confidence | as-written member | corrected member |
|---|---|---|---|---|---|---|
| preload.js:226-235 | `!timestamp` returns false for 0 before the range test, so 0 is rejected | `isValidTimestamp(0, 'ms')` and `isValidTimestamp(0, 's')` give false although 0 is 1970-01-01, the stated lower bound `minTime = 0` | every value whose millisecond form lies in [0, 4102444800000] is valid, 0 included | medium, not executed | Timestamp.ZeroIsRejected | Timestamp.IsInValidRange |
