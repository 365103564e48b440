# Weather app core, modelled in Dafny

This project models the logic of a mobile weather-lookup app. It has three parts:

- **The persistence layer** (`weather_store.dfy`, module `WeatherStore`). Two slots sit on a
  string key-value store. `"@weather:lastSelection"` holds the last viewed location and unit.
  `"@weather_favorites"` holds an ordered list of favourite cities. The store is a class
  `Store` whose field `slots` maps each key to the text stored under it. Stored text is
  abstract: the empty string (`Blank`), the serialisation of a JSON value (`Parsed`), or text
  that `JSON.parse` rejects (`Corrupt`). Each operation takes a flag saying whether its
  storage call fails. The source swallows such failures, and the model shows what each
  operation then returns and leaves behind.
- **The display helpers** (`weather_helpers.dfy`, module `WeatherHelpers`; `forecast_days.dfy`,
  module `ForecastDays`). These capitalise a description, build an icon URL, pick a background
  colour, and group forecast entries into days. The grouping is a method with a loop that
  builds the `days` dictionary. It is proved equal to the specification function `Forecast`,
  and the lemmas and `Forecast`'s own contract state the forecast's properties.
- **Unit conversion** (`units.dfy`, module `Units`). This covers Celsius/Fahrenheit over exact
  reals and `Math.round` as `floor(x + 1/2)`.

`js_values.dfy` (module `JsValues`) holds the shared JavaScript vocabulary:
- an `undefined` argument or property is `None`;
- a parsed value is a `Json`;
- `===` compares primitives by value and arrays or objects by reference (`StrictEq`).

Every array or object compared in the store comes from its own `JSON.parse` or from the
caller, so two of them are never the same reference.

The time from `Date.now()` is a parameter. The forecast's day key is `dt div 86400`, the UTC
day number. For times in the years 0000 to 9999, it is equal for two times exactly when their
`toISOString().slice(0, 10)` keys are.

`src/screens/SettingsScreen.js:5` imports a `clearFavorites` that `src/store/weatherStore.js`
does not export (the module ends with `removeFavorite`), so the model has no `clearFavorites`.

## Model

| member | source | states |
|---|---|---|
| JsValues.Prop | src/store/weatherStore.js:59-61 | reading `v.key` from a non-null value gives the object's own field, or undefined for a missing field or a non-object |
| JsValues.StrictEqProperties | src/store/weatherStore.js:60 | `===` as used on identity keys is symmetric, and reflexive exactly on undefined and primitives |
| Units.ConversionsAreInverse | src/utils/units.js:1-3 | `fToC(cToF(c)) == c` and `cToF(fToC(f)) == f` for every real |
| Units.CToFStrictlyIncreasing | src/utils/units.js:2 | `cToF` preserves strict order in both directions |
| Units.CToFLandmarks | src/utils/units.js:2 | 0 °C is 32 °F and 100 °C is 212 °F; -40 is the only point where both scales agree |
| Units.Round | src/utils/units.js:7 | `Math.round(x)` is the integer n with n - 1/2 <= x < n + 1/2 |
| Units.RoundUnique | src/utils/units.js:7 | only one integer lies in that window, so the rounding is determined by it |
| Units.RoundHalfGoesUp | src/utils/units.js:7 | exact halves round up, toward +infinity |
| Units.FormatTemp | src/utils/units.js:6-7 | with unit missing or "metric", the result is within 1/2 of the Celsius value; otherwise it is within 1/2 of the Fahrenheit value |
| Units.FormatTempUnits | src/utils/units.js:6-7 | a missing unit is "metric"; every other unit string, "imperial" or not, gives `round(cToF(t))` |
| WeatherStore.Stamp | src/store/weatherStore.js:7 | the saved record has exactly the payload's fields plus `timestamp`; `timestamp` is `now` even if the caller supplied one; every other field is the caller's |
| WeatherStore.SelectionView | src/store/weatherStore.js:16-18 | a successful load returns non-null only when the slot holds that parsed value; a parsed slot always yields its value |
| WeatherStore.FavoritesView | src/store/weatherStore.js:37-40 | a successful load returns a non-empty list only when the slot holds that array; a stored array always comes back unchanged |
| WeatherStore.AnySameCity | src/store/weatherStore.js:59-61 | on a list without nulls, the result is whether some entry matches the city's (name, country); a null city throws on any non-empty list; a null item reached by the scan throws; `false` implies no nulls; `true` exactly when a match comes before any null |
| WeatherStore.Without | src/store/weatherStore.js:78-80 | the filtered list keeps exactly the entries not matching (name, country), and nothing else |
| WeatherStore.WithoutDistributes | src/store/weatherStore.js:78-80 | filtering distributes over concatenation, so the remaining entries keep their relative order |
| WeatherStore.WithoutKeepsNoDuplicates | src/store/weatherStore.js:78-80 | removing from a duplicate-free list leaves it duplicate-free |
| WeatherStore.AppendKeepsNoDuplicates | src/store/weatherStore.js:59-65 | appending a city that the scan did not find keeps the list free of duplicate (name, country) pairs |
| WeatherStore.FoundAfterAppend | src/store/weatherStore.js:59-65 | a city with primitive name and country is found in any list it was appended to |
| WeatherStore.RemovedCityIsGone | src/store/weatherStore.js:78-80 | after removing by a city's own name and country, no entry is the same city |
| WeatherStore.Store.SaveLastSelection | src/store/weatherStore.js:5-12 | a successful write stores the stamped payload under the last-selection key and changes nothing else; a failed write changes nothing |
| WeatherStore.Store.LoadLastSelection | src/store/weatherStore.js:14-23 | returns the parsed record, or null for an absent, empty or corrupt slot or a failed read; never throws |
| WeatherStore.Store.ClearLastSelection | src/store/weatherStore.js:25-31 | removes exactly the last-selection key; a failed removal changes nothing |
| WeatherStore.Store.LoadFavorites | src/store/weatherStore.js:35-45 | returns the stored array, or [] for an absent, empty, corrupt or non-array slot or a failed read |
| WeatherStore.Store.SaveFavorites | src/store/weatherStore.js:47-53 | a successful write replaces the whole list under the favourites key and nothing else |
| WeatherStore.Store.AddFavorite | src/store/weatherStore.js:55-72 | if the city is already listed, returns the loaded list with no write; otherwise returns the list with the city appended and writes it, returning the longer list even when the write fails; a TypeError in the scan returns [] with no write; no other key changes |
| WeatherStore.Store.RemoveFavorite | src/store/weatherStore.js:74-88 | returns and writes the loaded list minus every matching entry, returning it even when the write fails; a null entry returns [] with no write; the last-selection slot is untouched |
| WeatherStore.SelectionRoundTrip | src/store/weatherStore.js:5-18 | a save followed by a load returns the payload with `timestamp` equal to the save time, whatever the store held before |
| WeatherStore.ClearIsIdempotent | src/store/weatherStore.js:14-31 | clearing twice leaves the same store as clearing once, and a load after either returns null |
| WeatherStore.AddTwiceKeepsOne | src/store/weatherStore.js:55-72 | adding the same city twice returns the same list both times; from a duplicate-free list, the result holds the city exactly once |
| WeatherStore.FailedReadOverwritesFavorites | src/store/weatherStore.js:41-43 | a failed favourites read yields [], so a following add stores just the new city and a following remove stores [], whatever list was stored before |
| WeatherStore.ParisScenario | src/store/weatherStore.js:35-88 | on an empty store, adding Paris gives [Paris] twice; removing ("Paris", "FR") gives []; a reload gives [] |
| WeatherHelpers.Upper | src/helpers/weatherHelpers.js:3 | `toUpperCase` keeps the length and maps each character |
| WeatherHelpers.Lower | src/helpers/weatherHelpers.js:13 | `toLowerCase` keeps the length and maps each character |
| WeatherHelpers.Capitalize | src/helpers/weatherHelpers.js:1-4 | "" for a missing or empty string; otherwise the same length, the first character upper-cased, and the rest unchanged |
| WeatherHelpers.CapitalizeIdempotent | src/helpers/weatherHelpers.js:1-4 | capitalising twice equals capitalising once; the result never starts with a lower-case ASCII letter |
| WeatherHelpers.DayIconName | src/helpers/weatherHelpers.js:8 | "01n" becomes "01d"; every other name is kept; the result is never "01n" |
| WeatherHelpers.IconUrl | src/helpers/weatherHelpers.js:6-10 | null exactly for a missing or empty icon; otherwise the URL is the base, then the (day) icon name, then "@", the size ("4x" when missing) and ".png" |
| WeatherHelpers.IconUrlIdentifiesIcon | src/helpers/weatherHelpers.js:6-10 | at one size, two icons give the same URL exactly when their day icon names are equal |
| WeatherHelpers.Includes | src/helpers/weatherHelpers.js:15-17 | `s.includes(p)` holds exactly when `p` occurs in `s` at some index |
| WeatherHelpers.BackgroundColor | src/helpers/weatherHelpers.js:12-20 | on the lower-cased description, "cloud" wins over "rain", which wins over "clear"; otherwise the default colour; each colour holds exactly when its condition does |
| WeatherHelpers.BackgroundColorIgnoresCase | src/helpers/weatherHelpers.js:12-20 | descriptions with the same lower-case form, such as a description and its upper-cased copy, get the same colour |
| WeatherHelpers.CloudWins | src/helpers/weatherHelpers.js:15 | any description containing "cloud" is cloudy, whatever else it says |
| ForecastDays.DayKey | src/helpers/weatherHelpers.js:28-29 | the day key is the 86400-second UTC day containing the time |
| ForecastDays.DayOrder | src/helpers/weatherHelpers.js:25-40 | the dictionary's keys are distinct, and they are exactly the days some entry falls on |
| ForecastDays.FindDay | src/helpers/weatherHelpers.js:46-49 | `find` gives the first entry on the day, present exactly when some entry is on that day |
| ForecastDays.DayOrderByFirstEntry | src/helpers/weatherHelpers.js:27-40 | the keys are in first-appearance order: an earlier key has an earlier first entry |
| ForecastDays.DayOrderStartsWithFirstEntry | src/helpers/weatherHelpers.js:27-41 | the first key, which `slice(1, 6)` skips, is the day of the first entry |
| ForecastDays.TempsOn | src/helpers/weatherHelpers.js:37 | a day's temperature list is non-empty exactly when some entry is on that day, so the average never divides by zero |
| ForecastDays.SumBounds | src/helpers/weatherHelpers.js:44 | the `reduce` sum lies between n times the least and n times the greatest temperature |
| ForecastDays.AverageBounds | src/helpers/weatherHelpers.js:44 | a day's average lies between its least and greatest temperature |
| ForecastDays.NatToDecimal | src/helpers/weatherHelpers.js:59 | a natural number's numeral is made of digits, with no leading zero |
| ForecastDays.DecimalRoundTrip | src/helpers/weatherHelpers.js:59 | reading the numeral back gives the number |
| ForecastDays.IntToDecimal | src/helpers/weatherHelpers.js:59 | an integer prints with a minus sign exactly when it is negative, followed by the digits of its magnitude |
| ForecastDays.TempLabel | src/helpers/weatherHelpers.js:59 | the label is the rounded number, then "°", then "C" exactly when the unit is "metric" and "F" otherwise |
| ForecastDays.DayIcon | src/helpers/weatherHelpers.js:51 | a missing or empty icon becomes null; any other icon is kept |
| ForecastDays.Window | src/helpers/weatherHelpers.js:41 | `slice(1, 6)` holds keys 1 to 5, as many as exist: min(5, n - 1) of them |
| ForecastDays.Forecast | src/helpers/weatherHelpers.js:40-62 | one summary per day key but the first, in key order, min(5, days - 1) of them, never the first entry's day; each icon comes from the day's first entry; each label is the rounded average of that day's temperatures |
| ForecastDays.CollectDays | src/helpers/weatherHelpers.js:25-38 | the one-pass loop builds the dictionary with keys in first-appearance order (`DayOrder`), and each key's temperatures are that day's entries' temperatures in list order |
| ForecastDays.GroupForecastIntoDays | src/helpers/weatherHelpers.js:22-65 | [] for a missing or empty list; otherwise the grouping followed by the summaries gives exactly `Forecast` of the list |
| ForecastDays.ForecastLength | src/helpers/weatherHelpers.js:40-41 | at most five days; exactly one fewer than the distinct days when those are six or fewer |
| ForecastDays.ForecastUnits | src/helpers/weatherHelpers.js:59 | every temperature label ends in "°C" when the unit is "metric" and in "°F" otherwise |

## Left out

- Asynchrony and interleaving: each store call is one atomic step. The lost update between
  overlapping `addFavorite`/`removeFavorite` calls is a concurrency effect and is not modelled.
- Logging (`console.log`) is not modelled. The text of `JSON.stringify` is not modelled either:
  a successful write stores the value itself, and a read parses it back to the same value.
  Property order inside stored objects is not kept (objects are maps).
- Payloads that `JSON.stringify` cannot render are not modelled: undefined fields, functions,
  cycles and non-finite numbers. A non-object `saveLastSelection` payload and an undefined
  `addFavorite` argument are not modelled either.
- JsValues.Prop: properties inherited from a prototype are not modelled. The two names read
  (`name`, `country`) exist on no prototype of a parsed value.
- WeatherHelpers.Capitalize, WeatherHelpers.Upper, WeatherHelpers.Lower: only ASCII letters change case. Unicode case mappings, some of which change a
  string's length, are not modelled, and strings are sequences of code points rather than UTF-16
  units.
- WeatherHelpers.Capitalize: the falsy non-string inputs (`0`, `false`, `NaN`) are not modelled;
  `None` stands for undefined and null.
- WeatherHelpers.BackgroundColor: `None` stands for a missing (undefined) description only. A
  null description makes `toLowerCase` throw, and that case is not modelled.
- WeatherHelpers.IconUrl: a non-string icon and a null size (which would print as "null") are
  not modelled.
- ForecastDays.GroupForecastIntoDays: the weekday label from `toLocaleDateString` depends on
  locale and time zone. The summary carries the day number it is drawn from instead.
- ForecastDays.DayKey: times before the year 0000 or from the year 10000 on
  (dt < -62167219200 or dt >= 253402300800) are not modelled. For those years `toISOString`
  writes a six-digit signed year, so `slice(0, 10)` gives a month key such as "+010000-01",
  while the model still groups by day.
- Entries without `main` (which make the grouping throw) and times outside the range of `Date`
  (which make `toISOString` throw) are not modelled. Fractional `dt` values are not modelled.
- ForecastDays.IntToDecimal: the exponent notation that `String(n)` uses at 1e21 and above is
  not modelled.
- Floating point: temperatures, their average and the conversions are exact reals. IEEE-754
  rounding and NaN are not modelled.
