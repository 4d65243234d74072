# Weather app core, modelled in Dafny

The app is a small weather application. It has a browser front end (`app.js`) and an Express server (`server/server.js`) that keeps saved date ranges in an SQLite table. This project models the parts of the app that compute something, and proves what they promise:

- **Five-day forecast cards** (`pickDailySummaries` in `app.js`), in `forecast.dfy`:
  - the forecast feed is grouped by local calendar day, and the first five days are kept in date order;
  - each day gets its minimum and maximum temperature and its representative icon, found by a counting loop that replaces on `>=`;
  - each day's label comes from the sample nearest local noon.
- **Coordinate queries** (`parseMaybeCoords`, in both files), in `coords.dfy`. The regular expression is modelled twice: as a scanner, and as a declarative shape. The two are proved equal.
- **Temperature and speed labels** (`fmtTemp`, `fmtSpeed`), in `display.dfy`.
- **Date checks** of the record handlers (`isISODate`, plus the `new Date` comparisons), in `dates.dfy`. Parsing is modelled on the proleptic Gregorian calendar, with the engine's leniency about day overflow.
- **Upstream helpers** (`geocode`, `getTempsForRange`, `unitToOpenMeteoTemperature`), in `services.dfy`. The geocoding and archive services are functions passed in through `Host`. Every request made is returned as a `Call`, so the claim "no upstream request on invalid input" is something the proofs can state.
- **The records table and its handlers** (create, list, get, update, delete, CSV export), in `records.dfy`:
  - `RecordStore` is a class: a map from id to row, plus the AUTOINCREMENT sequence value;
  - the CSV cells are written by `JSON.stringify`, modelled in `json.dfy` together with a reader, so quoting is proved injective.
- **Shared string helpers**, in `text.dfy`: `trim`, `join`, `split` and integer text.

Choices where the model has to decide something:

- **Noon distance.** `(dt + tz) % 86400` at app.js:106 uses JavaScript's truncating remainder. The model writes that operator out as `JsRem` instead of assuming `dt + tz >= 0`, so samples before 1970 are covered too. `NoonDistanceIsTimeOfDay` shows it is the time-of-day distance from 1970 on.
- **Day keys are day numbers.** A key is `(dt + tz) div 86400`. The source sorts the `YYYY-MM-DD` strings, which order the same way as day numbers for years 0000 to 9999, so `PickDailySummaries` requires every local time to lie in that range (`InIsoRange`).
- **Date parsing.** A date-only string that passes `isISODate` is read by the engine's ISO date reader as UTC midnight:
  - a month in 1..12 and a day in 1..31 are accepted, and a day past the end of its month rolls into the next month;
  - the model treats anything else as an Invalid Date, whose comparisons are all false, so it passes both range checks (`InvalidDatePasses`);
  - the engine does not always do that: for years 0001 to 0012 it hands a refused text to its fallback parser, which reads it as a local month-day-year date (see "## Left out").
  - Dates are exact day counts, so `(end - start) / 86400000 > 366` becomes a comparison of day numbers.
- **Numbers.** The model uses exact reals. `toFixed(3)` and the engine's number-to-text conversion come from `Host` as opaque functions; the only thing assumed about number text is its characters (`NumberText`).
- **Create and update validate differently.** Both run the same date checks. Create rejects a missing or empty query first. Update never checks the query, and it falls back to the stored field for each absent body field before checking.

## Model

| member | source | states |
|---|---|---|
| Forecast.LocalDateKey | app.js:33-35 | the key is the local day containing `dt + tz`: `key*86400 <= dt+tz < (key+1)*86400` |
| Forecast.NoonDistanceIsTimeOfDay | app.js:105-107 | from 1970 on, the source's truncating `%` gives the distance of the local time of day from noon |
| Forecast.BucketMembers | app.js:88-91 | a sample is in the bucket of a key iff it is in the feed and its local day is that key |
| Forecast.BucketConcat | app.js:88-91 | grouping distributes over concatenation, so each bucket keeps feed order |
| Forecast.BucketEmpty | app.js:88-91 | a bucket is empty iff its key is not the local day of any sample |
| Forecast.GroupByDay | app.js:87-91 | the filling loop yields distinct keys, exactly the days present, each bucket being that day's samples in feed order |
| Forecast.SortKeys | app.js:92 | sorting distinct keys gives a strictly ascending sequence of the same keys and length |
| Forecast.DistinctSize | app.js:92 | a duplicate-free key list is as long as the set of days |
| Forecast.FirstDaysOfSorted | app.js:92 | taking the first five sorted keys gives min(5, days) keys, ascending, and every dropped day comes after all kept ones |
| Forecast.MinOf | app.js:96 | the minimum is one of the temperatures and at most each of them |
| Forecast.MaxOf | app.js:97 | the maximum is one of the temperatures and at least each of them |
| Forecast.PickIcon | app.js:98-104 | the counting loop with replacement on `>=` returns the weather the representative predicate names |
| Forecast.RepresentativeIsLatestMaximal | app.js:103 | the chosen icon has the largest count, every later sample has a strictly smaller count, so on a tie the icon completing its count latest wins and its last sample's description is kept |
| Forecast.RepresentativeUnique | app.js:98-104 | at most one weather is representative |
| Forecast.NoonishIndex | app.js:105-107 | the label sample minimises the noon distance, and every earlier sample is strictly farther (earliest wins ties) |
| Forecast.NoonishUnique | app.js:105-107 | at most one time satisfies the label specification |
| Forecast.SummarizeDay | app.js:93-108 | a day's card has the key, the min and max temperatures, the representative icon and description, and the noon label; `min <= max` |
| Forecast.SummaryDeterministic | app.js:93-108 | the day specification determines the card completely |
| Forecast.SummarizeDays | app.js:93-109 | one card per chosen key, in key order, each the card of that day's bucket |
| Forecast.PickDailySummaries | app.js:85-110 | min(5, number of local days) cards, strictly ascending keys, each key a day of the feed, a missing day coming after all five shown, and every card built from its day's samples |
| Coords.ScanCoordsSound | app.js:50 | whatever the scanner accepts has the shape number, blanks, comma, blanks, number |
| Coords.ScanCoordsComplete | app.js:50 | every text of that shape is accepted by the scanner at its cut points |
| Coords.ParseMaybeCoords | server/server.js:54-60 | `parseMaybeCoords` is the match on the trimmed text; any result lies within latitude ±90 and longitude ±180 (which texts give a result: `ParseMaybeCoordsSound`, `ParseMaybeCoordsComplete`) |
| Coords.MatchTrimmed | app.js:51-54 | a result always lies within latitude ±90 and longitude ±180 |
| Coords.ParseMaybeCoordsSound | app.js:49-55 | a result is produced only for trimmed text of the coordinate shape, and holds the two numerals' values |
| Coords.ParseMaybeCoordsComplete | server/server.js:54-60 | trimmed text of the coordinate shape gives its two numbers exactly when they are in range, and null otherwise |
| Coords.ParseMaybeCoordsPadded | server/server.js:55 | white space around the query never changes the outcome |
| Coords.UnsignedValueBounds | server/server.js:57 | the value of a decimal numeral lies between its integer part and the next integer |
| Text.Trim | server/server.js:55 | `trim` gives a text no longer than its input that neither starts nor ends with white space (what it removes: `TrimInfix`, `TrimPadded`) |
| Text.TrimPadded | server/server.js:55 | `trim` removes exactly the surrounding JavaScript white space |
| Text.TrimIdempotent | app.js:50 | trimming twice is trimming once |
| Text.TrimInfix | app.js:50 | the trimmed text is an infix of the input with only white space around it |
| Text.TrimStartAt | server/server.js:55 | the first half of `trim` keeps a suffix of its input and drops only white space in front of it |
| Text.TrimEndAt | server/server.js:55 | the second half of `trim` keeps a prefix of its input and drops only white space after it |
| Text.SplitJoin | server/server.js:220-223 | splitting a join on its one-character separator gives the parts back when no part contains it |
| Text.IntTextRoundTrip | app.js:28 | the decimal text of an integer reads back as that integer |
| Display.Round | app.js:28 | `Math.round` gives the integer within half a unit, halves rounding up |
| Display.FmtTemp | app.js:28 | the label ends in `°C` exactly when the units are `'metric'` and in `°F` for every other string, preceded by the canonical decimal text of the rounded value (no leading zeros), which reads back to that value |
| Display.FmtSpeed | app.js:29 | the label ends in ` m/s` exactly when the units are `'metric'` and in ` mph` otherwise, preceded by the canonical decimal text of the rounded value (no leading zeros), which reads back to that value |
| Dates.IsISODateShape | server/server.js:53 | the contract of `Dates.IsISODate`: it holds iff the text has length 10, `-` at positions 4 and 7 and ASCII digits elsewhere, with no month or day check |
| Dates.DayNumber | server/server.js:138 | the ISO date reader accepts a date-only string iff its month is 1..12 and its day 1..31, and gives its UTC day; the fallback parser for years 0001 to 0012 is left out |
| Dates.YearLength | server/server.js:141-142 | consecutive years are 365 or 366 days apart by the Gregorian leap rule |
| Dates.CivilDayNext | server/server.js:141-142 | the next calendar date has the next day number |
| Dates.CivilDayOverflow | server/server.js:138 | a day past the end of its month denotes the corresponding day of the next month |
| Dates.DateTextFields | server/server.js:53 | every `YYYY-MM-DD` text passes `isISODate` whatever its month and day, and its fields read back |
| Dates.CheckRange | server/server.js:135-142 | a bad format is reported iff either text fails `isISODate`, and a text the ISO date reader refuses passes the later checks (the fallback parser for years 0001 to 0012 is left out) |
| Dates.CheckRangeSpan | server/server.js:138-142 | between real dates the range is accepted iff the end is not before the start and at most 366 days after it, and reversed iff the start is later |
| Dates.InvalidDatePasses | server/server.js:138-142 | a month of 00 or 13..99 or a day of 00 or 32..99 is an Invalid Date and is let through by both comparisons, for every year except 0001 to 0012 with a month of 01..31, which the engine's fallback parser reads as a real date |
| Dates.RangeLimitEdge | server/server.js:186-188 | a 366-day range is accepted, a 367-day range is refused, and a one-day range is accepted |
| Json.Escape | server/server.js:222 | the escaped body of a `JSON.stringify` cell holds no control character (that it can be read back: `UnquoteQuote`) |
| Json.EscapeChar | server/server.js:222 | `JSON.stringify` escapes leave no control character, and change exactly the quote, backslash and control characters |
| Json.Quote | server/server.js:222 | a quoted cell starts and ends with `"` and holds no control character |
| Json.UnquoteQuote | server/server.js:222 | reading a quoted cell gives the original string back |
| Json.QuoteInjective | server/server.js:222 | different strings give different cells |
| Services.HttpStatus | server/server.js:168 | 404 exactly for a missing record, 400 for every other error |
| Services.TemperatureUnit | server/server.js:61-63 | Fahrenheit exactly for `'imperial'`, Celsius otherwise |
| Services.PresentPartsFromList | server/server.js:79 | the kept parts are present, non-empty and taken from the list |
| Services.PlaceNameParts | server/server.js:79 | the contract of `Services.PlaceName`: the place name is the non-empty parts joined by `", "`; it is empty iff no part is kept; with all three parts it is `name, admin1, country_code` |
| Services.CoordinateName | server/server.js:68 | the name of a coordinate query splits on ',' into the two three-decimal texts, the second after one space |
| Services.Geocode | server/server.js:65-81 | no request iff the query is a coordinate pair, whose result is the coordinate name and the parsed coordinates; otherwise exactly one geocoding request, failing with the status iff the status is not OK, failing with no match iff the status is OK and the results are missing or empty, succeeding iff the status is OK and the results are non-empty, and then giving the first result's place name, latitude and longitude; any failure is one of those two errors |
| Services.GeocodeCoordinatesInBounds | server/server.js:66-69 | a coordinate query resolves within the latitude and longitude bounds |
| Services.ZipDaily | server/server.js:96-101 | the `map` over `daily.time` gives one entry per date (what each entry holds: `ZipDailyAt`) |
| Services.ZipDailyAt | server/server.js:96-101 | entry i of the zip holds the i-th date and the i-th entry of each array, null past an array's end |
| Services.UnzipZip | server/server.js:96-101 | equal-length arrays are recovered from their zip's columns |
| Services.GetTempsForRange | server/server.js:83-103 | exactly one archive request with the unit mapped; the archive error iff the status is not OK; no data iff `daily` or `daily.time` is missing; a malformed archive iff `time` is non-empty and a temperature array is missing; success iff none of these, and any failure is one of those three errors; on success entry i is the i-th date with the i-th entry of each array (`undefined` past an array's end) |
| Records.ValidateCreate | server/server.js:133-142 | a missing or empty query is reported first; otherwise the date errors are those of the range check; on success the fields are the body's, with units defaulting to `'metric'` |
| Records.ValidateUpdate | server/server.js:178-188 | every absent field falls back to the stored value; only the date checks apply |
| Records.UndefinedIsNoDate | server/server.js:135 | an absent date (`"undefined"` to the regex) fails `isISODate` |
| Records.Resolve | server/server.js:144-145 | the archive is asked once, at the geocoded place, only after geocoding succeeded; a geocoding failure ends the request; after geocoding, an archive failure is the result's error and an archive success gives the draft of the request, the place and the temperatures |
| Records.PlanCreate | server/server.js:133-145 | a validation failure makes no upstream request; a valid body is resolved |
| Records.PlanUpdate | server/server.js:183-191 | a validation failure makes no upstream request; a valid update is resolved |
| Records.CreateValidationOrder | server/server.js:134-145 | missing query beats a bad format, a bad format beats a reversed range, and any upstream request implies valid input |
| Records.ValidateCreateOrder | server/server.js:134-139 | the create validation reports a missing or empty query first, then a start or end date not in `YYYY-MM-DD` form, then a start after the end |
| Records.CreateFailsEarly | server/server.js:134-142 | a failed validation ends the create handler with that error and no upstream request |
| Records.NewRecord | server/server.js:38-41 | an inserted row gets the given id, source `'open-meteo'` and both timestamps from the clock |
| Records.UpdatedRecord | server/server.js:42-49 | an updated row keeps its id, source and creation time and gets the new update time |
| Records.UpdateKeepsOmitted | server/server.js:178-181 | a field the body omits keeps its stored value |
| Records.ByIdDescListsRows | server/server.js:50 | `ORDER BY id DESC` lists each stored row once, by strictly descending id, and misses none |
| Records.CsvLines | server/server.js:222 | one line per row |
| Records.CsvLinesAt | server/server.js:222 | line i is the line of row i, so the lines keep the rows' order |
| Records.LineHasNoBreak | server/server.js:222 | a record's line holds no line break |
| Records.HeaderHasNoBreak | server/server.js:219-221 | the header line holds no line break |
| Records.CsvOneLinePerRecord | server/server.js:217-223 | the contract of `Records.Csv`: split on line breaks the export is the header followed by each record's line, so it has one line more than there are records, and with no records it is the header alone |
| Records.CsvIgnoresTemps | server/server.js:219-222 | the stored temperatures never reach the export |
| Records.RecordStore.constructor | server/server.js:21-36 | the table starts empty with the sequence at 0 |
| Records.RecordStore.Insert | server/server.js:157 | the new row's id is one above the sequence, so above every id ever issued, and nothing else changes |
| Records.RecordStore.Create | server/server.js:131-163 | makes the requests of the plan; on failure nothing changes; on success the new row is stored under a fresh id above every issued one |
| Records.RecordStore.List | server/server.js:165 | every row, each the stored one, by strictly descending id |
| Records.RecordStore.Get | server/server.js:166-170 | the stored row iff the id is present, else not found with status 404 |
| Records.RecordStore.Update | server/server.js:172-209 | a missing id is not found before any check or request; otherwise the plan's requests are made, and on success only that row changes |
| Records.RecordStore.Rewrite | server/server.js:193-203 | the UPDATE replaces that one row and leaves the sequence alone |
| Records.RecordStore.Delete | server/server.js:211-215 | removes only that row, and reports found iff it existed |
| Records.RecordStore.ExportCsv | server/server.js:217-226 | the export of the rows by descending id: header plus one line per row, the header alone for an empty table |

## Left out

- DOM rendering, event handlers, `localStorage`, prompts and geolocation in `app.js`: user-interface code with nothing to compute beyond templates.
- `fetch`, Express routing, CORS, dotenv and server start-up: request plumbing. Upstream responses are passed in through `Host`, and handler replies are the returned `Result`.
- `/api/weather` and `getCurrentAndForecast`: the two OpenWeather requests run concurrently with `Promise.all`, and their results are passed through unchanged.
- Binary floating point: `parseFloat` rounding, `Math.round` on doubles, the digits of `toFixed(3)` and of number text in the CSV. The model uses exact reals and opaque formatting functions.
- Locale-dependent labels (`toLocaleDateString`, `toLocaleTimeString`): `DailySummary.labelDt` holds the time of the label sample instead of the text.
- Forecast.PickDailySummaries: not modelled for local times outside years 0000 to 9999, where `toISOString` keys no longer sort as day numbers or throw.
- Forecast.PickDailySummaries: the `|| 0` fallback for a missing `city.timezone` is not modelled; the offset is an integer argument.
- Forecast.PickIcon: JavaScript object keys are not modelled, so prototype names such as `__proto__` used as an icon code are treated like any other string.
- SQLite itself: the engine, WAL mode, failures of a statement, and the clock behind `datetime('now')`, which is an argument.
- Records.RecordStore.Get: the path id is taken as an integer. The text affinity of `req.params.id`, `Number()` on the update path, and ids that are not integers are not modelled.
- Concurrency between handlers, such as a delete landing while an update awaits its upstream requests.
- JSON bodies whose fields are not strings, and `null` fields, which the model does not tell apart from absent ones. Response bodies that are not valid JSON are not modelled either.
- Dates.DayNumber: for years 0001 to 0012, a month of 01..31 together with a month above 12 or a day of 00 or 32..99 is refused by the ISO date reader and then read by the engine's fallback parser as a local month-day-year date (for example "0001-13-01" as 13 January 2001). The model gives None (an Invalid Date) there, because that parser and the local time zone are outside the model.
- Dates.CheckRange: for the same inputs the source compares the fallback parser's local dates, so it can reply "startDate must be before endDate" or "Date range too large" where the model lets the range through.
- Dates.InvalidDatePasses: stated only outside those inputs; for years 0001 to 0012 with a month of 01..31 the source does not let the date through.
- Services.At: an index past the end of an array is `undefined` in the source and `None` in the model, the same as a `null` entry. `JSON.stringify` drops a key whose value is `undefined` and keeps a `null`, so the stored `temps_json` of such an entry is not modelled exactly.
- Json.Escape: lone surrogate code units are not modelled; Dafny's `char` is a Unicode scalar value.
