# Infection risk alert: a verified model of the classification core

The alert script pulls the latest 20 readings of a ThingSpeak channel, turns every feed
record into a row of six sensor readings (temperature, humidity, pressure, PM2.5 dust,
CO2, TVOC), runs each row through a pretrained scaler, PCA and clustering model,
takes the most frequent cluster label, names its risk tier, writes the latest readings
with the label and tier back to ThingSpeak, and emails the tier with the latest
readings and their time in India Standard Time.

This project models, in Dafny, everything between the fetch and the two sends:

- `Feed` (feed.dfy): `safe_float`, the row-building loop of the script, and the feature
  matrix in the column order the model was fitted with.
- `Aggregate` (aggregate.dfy): scipy's `mode` as a counting loop (ties go to the
  smallest label) and the `cluster_to_risk` table, whose missing keys raise `KeyError`.
- `Calendar` (calendar.dfy): the proleptic Gregorian calendar of Python's `datetime`
  (years 1 to 9999, leap years, day ordinals, instants in seconds).
- `Ist` (ist.dfy): `to_ist` as `strptime` with the format `%Y-%m-%dT%H:%M:%SZ`, adding
  5 h 30 min, and `strftime` with `%d-%m-%y %I:%M:%S %p`.
- `Report` (report.dfy): the writeback payload and `build_email_text`.
- `Alert` (alert.dfy): the script body from the empty-feed check to the email, as one
  method `Run` whose outcome says what would be handed to the writeback and to the mailer.
- `Base` (base.dfy): the raised exceptions as values (`Error`, `Result`).

Exceptions become `Err` values: `TypeError` for a `created_at` that is not a string,
`ValueError` for a timestamp that `strptime` rejects, `OverflowError` for a shifted time
past year 9999, and `KeyError(label)` for a label that the tier table lacks.
The feed JSON is a `map<string, Json>`. A missing key reads as `Null`, as `dict.get` does.
A reading is a `Float`: a finite real, NaN, or an infinity. Python's `float()` on text is a
parameter `parse: string -> Option<Float>`, where `None` is the case in which `float` raises;
it may return NaN or an infinity, as `float("nan")` and `float("1e400")` do. The JSON
literals `NaN` and `Infinity` are numbers too. The input validation of `scaler.transform`
and `pca.transform` raises `ValueError` when any reading is not finite. The scaler, PCA
and model chain, applied to finite readings, is a parameter `predict: seq<real> -> int`.
It is applied to each row of the feature matrix, so there is one label per row, in row order.

`strptime` is modelled by the strings its pattern matches. A `Layout` chooses, for each
one- or two-digit field, its width, the form of the day (`5`, `05` or ` 5`), and the case
of the `T` and the `Z`. `Render` writes a valid date-time in a layout. The parser accepts
a string exactly when it is such a rendering, and then returns that date-time.

## Model

| member | source | states |
|---|---|---|
| `Feed.Get` | infection_risk_alert.py:112-118 | `f.get(key)`: the value stored under a present key, `None` for a missing one |
| `Feed.ToFloat` | infection_risk_alert.py:40 | `float(x)` raises exactly for `None`, containers and text the parser rejects; `True` and `False` give 1.0 and 0.0; a JSON number, NaN and infinities included, is itself |
| `Feed.SafeFloat` | infection_risk_alert.py:38-42 | never fails; the value of `float(x)` when it succeeds (NaN and infinities included), `0.0` when it raises (always for `None` and containers), the number itself for a JSON number |
| `Feed.NormalizeRecord` | infection_risk_alert.py:111-119 | the row's six values are `safe_float` of `field1` .. `field6`, in the order temp, humidity, pressure, dust, co2, tvoc; `created_at` is copied unchanged (`None` when missing) |
| `Feed.Rows` | infection_risk_alert.py:109-119 | one row per feed record, in feed order, each the normalization of its record |
| `Feed.BuildRows` | infection_risk_alert.py:109-119 | the append loop yields exactly one row per record, in order, each the normalization of its record |
| `Feed.Features` | infection_risk_alert.py:125 | a row's feature vector has the six columns of the model input |
| `Feed.FeatureMatrix` | infection_risk_alert.py:121-125 | the matrix `X` has one row per DataFrame row, holding that row's six readings in the fixed column order |
| `Feed.NormalizeRoundTrip` | infection_risk_alert.py:110-119 | when all six fields convert, the feature row equals the converted `field1` .. `field6` in order |
| `Feed.DegenerateRecord` | infection_risk_alert.py:113-118 | a record whose six fields all fail to convert still yields a row, of six zeros |
| `Alert.Predictions` | infection_risk_alert.py:125-128 | `ValueError` exactly when some reading is NaN or infinite; otherwise exactly one label per row, the label of that row's feature vector |
| `Aggregate.Mode` | infection_risk_alert.py:136 | for non-empty labels, the result occurs in them, no label occurs more often, and among equally frequent labels it is the smallest; no labels give `ValueError` |
| `Aggregate.ModeUnique` | infection_risk_alert.py:136 | the mode is unique, so the aggregated label is determined by the labels |
| `Aggregate.TieGoesToSmallest` | infection_risk_alert.py:136 | the mode of `[0, 0, 1, 1]` is `0` and not `1` |
| `Aggregate.RiskTier` | infection_risk_alert.py:130-137 | 0, 1 and 2 map to "Low Risk", "Medium Risk" and "High Risk"; any other label raises `KeyError` of that label |
| `Calendar.NextDay` | infection_risk_alert.py:63 | the next calendar day has the next ordinal, keeps the time of day, is a valid date unless it leaves year 9999, and leaves year 9999 only from 9999-12-31 |
| `Calendar.DaysBeforeYearMonotone` | infection_risk_alert.py:63 | every year has at least 365 days, so later years start later |
| `Calendar.DaysBeforeMonthMonotone` | infection_risk_alert.py:63 | every month has at least 28 days, so later months start later |
| `Calendar.DayOfYearBounds` | infection_risk_alert.py:63 | the day of the year of a valid date lies within the year and before the next month |
| `Calendar.OrdinalInjective` | infection_risk_alert.py:62-63 | distinct valid dates have distinct day ordinals |
| `Calendar.InstantInjective` | infection_risk_alert.py:62-63 | distinct valid date-times denote distinct instants |
| `Calendar.InstantRange` | infection_risk_alert.py:63 | every valid date-time lies between 0001-01-01 00:00:00 and 9999-12-31 23:59:59 |
| `Ist.ParseUtc` | infection_risk_alert.py:62 | a parsed timestamp is a valid date-time; every rejection is `ValueError` |
| `Ist.ParseRender` | infection_risk_alert.py:62 | every valid date-time, rendered in every layout the pattern matches, parses back to itself |
| `Ist.ParsedIsRendering` | infection_risk_alert.py:62 | every accepted string is the rendering, in some layout, of the date-time it parses to |
| `Ist.ParseUtcMatchesGrammar` | infection_risk_alert.py:62 | a string parses to `t` exactly when `t` is a valid date-time and the string renders `t` in some layout |
| `Ist.ParseUtcRejects` | infection_risk_alert.py:62 | a string that renders no valid date-time in any layout is rejected with `ValueError` |
| `Ist.ParseFormatUtc` | infection_risk_alert.py:62 | every valid date-time written as `YYYY-MM-DDTHH:MM:SSZ` parses back to itself |
| `Ist.ShortFieldsAccepted` | infection_risk_alert.py:62 | `strptime` also accepts one-digit fields and a lower-case `t` and `z`: `2024-1-5t3:4:5z` is 2024-01-05 03:04:05 |
| `Ist.DateThenClock` | infection_risk_alert.py:62 | after a valid date and its `T`, the result is decided by the clock text alone: its error, or the date with its time |
| `Ist.TrailingTextRejected` | infection_risk_alert.py:62 | any text after the final `Z` of a valid timestamp is a `ValueError` |
| `Ist.LeapSecondRejected` | infection_risk_alert.py:62 | second 60 or 61, which the `%S` pattern admits, is a `ValueError` on every date |
| `Ist.DayPastMonthEndRejected` | infection_risk_alert.py:62 | a day past the end of its month, such as 30 February, is a `ValueError` although the `%d` pattern admits it |
| `Ist.ShiftIst` | infection_risk_alert.py:63 | the result is a valid date-time exactly 19800 seconds (5 h 30 min) later, with the same seconds; `OverflowError` exactly when that instant is past 9999-12-31 23:59:59 |
| `Ist.LeapDayRollover` | infection_risk_alert.py:63 | 2024-02-28 20:00 UTC becomes 2024-02-29 01:30, in a leap year |
| `Ist.CommonYearRollover` | infection_risk_alert.py:63 | 2023-02-28 20:00 UTC becomes 2023-03-01 01:30, in a common year |
| `Ist.YearRollover` | infection_risk_alert.py:63 | 2023-12-31 18:45:07 UTC becomes 2024-01-01 00:15:07 |
| `Ist.LastYearOverflows` | infection_risk_alert.py:63 | 9999-12-31 20:00 UTC cannot be shifted: `OverflowError` |
| `Ist.Hour12` | infection_risk_alert.py:64 | the `%I` hour lies in 1 .. 12 |
| `Ist.Meridiem` | infection_risk_alert.py:64 | `%p` is "AM" exactly before noon and "PM" otherwise |
| `Ist.FormatIst` | infection_risk_alert.py:64 | the text has 20 characters, with `-`, `-`, a space, `:`, `:` and a space at the places of `%d-%m-%y %I:%M:%S %p`, and ends with the meridiem of the hour |
| `Ist.FormatIstLayout` | infection_risk_alert.py:64 | the text has 20 characters laid out as `dd-mm-yy hh:MM:SS AM/PM`; the day, month, year mod 100, 12-hour hour, minute and second read back from it, and the 12-hour hour with the meridiem gives back the hour of the day |
| `Ist.MidnightAndNoon` | infection_risk_alert.py:64 | midnight is rendered as 12 AM and noon as 12 PM |
| `Ist.LeapDayRendering` | infection_risk_alert.py:64 | 2024-02-29 01:30:00 renders as `29-02-24 01:30:00 AM` |
| `Ist.AfterMidnightRendering` | infection_risk_alert.py:64 | 2024-01-01 00:15:07 renders as `01-01-24 12:15:07 AM` |
| `Ist.ToIst` | infection_risk_alert.py:61-64 | a non-string raises `TypeError`; a string succeeds exactly when it parses and its shift is representable, giving 20 characters |
| `Ist.ToIstDenotesShift` | infection_risk_alert.py:61-64 | for a string that parses, the result is the rendering of the one valid date-time 5 h 30 min later |
| `Ist.ToIstFailure` | infection_risk_alert.py:61-63 | a string fails exactly when it does not parse or the shifted instant is past year 9999 |
| `Ist.ToIstRejectsNonMatching` | infection_risk_alert.py:61-62 | a string that renders no valid date-time in any layout raises `ValueError` |
| `Report.UpdatePayload` | infection_risk_alert.py:142-152 | `field1` .. `field6` are the latest row's six readings in canonical order, `field7` is the mode label and `field8` its tier |
| `Report.BuildEmailText` | infection_risk_alert.py:67-92 | fails exactly when `to_ist` of the latest `created_at` fails, with its error; otherwise the subject is "Infection Risk Update – " followed by the tier, and the body carries the IST time and the latest six readings |
| `Alert.Run` | infection_risk_alert.py:104-164 | an empty feed list ends the run with "no data" and nothing else; otherwise the run aborts with `ValueError` when a reading is NaN or infinite, or with `KeyError` of the mode label when it has no tier, or sends the writeback of the last row with the mode label and its tier, and builds the email for them |
| `Alert.RunDecidedByMode` | infection_risk_alert.py:130-152 | for a non-empty feed list the writeback is sent exactly when the mode label is in the tier table, and then carries that label; otherwise the abort names that label |

## Left out

- The HTTP fetch of the feeds and the writeback POST (infection_risk_alert.py:96-102, 154-159): network I/O. `Run` returns the payload that would be posted. A failed POST, which in the script would also stop the email, is not modelled.
- `send_email` (infection_risk_alert.py:45-59): SMTP delivery and its swallowed exceptions. `Run` returns the email that would be sent.
- Environment variables and the constants of infection_risk_alert.py:12-28, including the payload's `api_key` and the channel link in the email body: process configuration.
- Loading the model files and the numerics of `scaler.transform`, `pca.transform` and `model.predict` (infection_risk_alert.py:32-34, 126-128): floating-point work inside pretrained objects, replaced by the `predict` parameter.
- `Feed.SafeFloat`: Python's `float()` text grammar is the `parse` parameter. A finite JSON number is taken as the exact real. Rounding to binary64, and the `OverflowError` that `float` raises for huge integers (which `safe_float` would turn into `0.0`), are not modelled.
- `Alert.Predictions`: every non-finite reading is a `ValueError`. The model does not say which transform raises it (`scaler.transform` rejects infinities and lets NaN through to `pca.transform`, which rejects it). A finite reading that becomes infinite inside the floating-point scaling is not modelled either.
- pandas DataFrame mechanics (infection_risk_alert.py:121, 138): a sequence of rows stands for the frame, and its last element for `df.iloc[-1]`.
- `Ist.ParseUtc`: only ASCII digits are digits. Python's `\d` in `strptime` also accepts other Unicode decimal digits, which the model rejects with `ValueError`.
- `Ist.Meridiem`: `%p` is rendered as in the C locale ("AM"/"PM"); other locales are not modelled.
- `Report.BuildEmailText`: the exact text of the email body, and Python's rendering of the readings as text (infection_risk_alert.py:75-90), are cosmetic. The model keeps the subject, the tier, the IST time and the six readings the body shows.
- The `print` calls: logging only.
- A per-label tally policy for aggregation is not part of this revision of the script, which only takes the mode; it is not modelled.

## Notes on the source

- An unmapped label raises `KeyError` at infection_risk_alert.py:137. The model follows this code, and there is no "Unknown" fallback.
- `build_email_text` takes `mode_cluster` but does not use it (infection_risk_alert.py:67-92). `BuildEmailText` does not use it either.
- The writeback is posted before the email is built (infection_risk_alert.py:154-164). A malformed or missing `created_at` therefore raises after the writeback has gone out. `Alert.Run` records this as `Sent(payload, Err(...))`.
- `mode` on an empty label list is never reached, because the script exits first on an empty feed list (infection_risk_alert.py:104-106). `Aggregate.Mode` still models it as `ValueError`: scipy returns NaN there, and `int` of NaN raises.
