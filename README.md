# IoT health monitoring dashboards: client-side state derivation

This project models the client-side logic of the IoT health monitoring system's two dashboards, the React Native mobile app and the React web dashboard. Both receive one whole device record at a time. From it they derive:

- a health score with a severity colour;
- a rolling ECG buffer;
- a device online/offline flag;
- the SpO2 gauge value;
- a list of alerts that an `AlertMessage` badge rotates through.

Each derivation is proved against properties stated independently of its body: bounds, thresholds, round trips, order, bounded-FIFO behaviour and cyclic rotation.

Layout, one module per file:

- `telemetry.dfy` (`Telemetry`): the device record, liveness, the SpO2 gauge value and the ECG sample value. Both App components share these.
- `health_score.dfy` (`HealthScore`): `calculateHealthScore`.
- `alert_parsing.dfy` (`AlertParsing`): the split/trim/filter chain. `alert_parsing_examples.dfy` (`AlertParsingExamples`) adds padding lemmas and worked examples.
- `waveform.dfy` (`Waveform`): the ECG buffer update, with the capacity as a parameter.
- `rotation.dfy` (`Rotation`): the cursor step `(prev + 1) % length` and what a badge shows.
- `mobile_alert_message.dfy` and `web_alert_message.dfy`: the two `AlertMessage` components as classes.
- `mobile_app.dfy` and `web_app.dfy`: the two `App` components' state as classes. A record's arrival is the `OnSnapshot(val, now)` method: the database listener (`OnValue`), then the re-render that hands the parsed alert list to the badge (`Render`), then the liveness effect when the heartbeat changed. A liveness tick is `CheckStatus(now)`.

Modelling choices:

- Every vital is an `Option<real>`. `None` stands for `undefined` or `NaN`, for which every JavaScript `<` and `>` is false, so a missing vital never costs anything. Comparisons are exact, on reals.
- `Date.now()` is the parameter `now`.
- Timers are explicit calls: `Advance` for a rotation tick, `CheckStatus` for a liveness tick.
- `trim` removes the ECMAScript WhiteSpace and LineTerminator characters, which are listed one by one in `AlertParsing.IsSpace`.
- The web App imports a `calculateHealthScore` module (`web-dashboard/src/App.jsx:6`) whose source is not part of this model. Its contract is taken to be that of `mobile-app/utils/calculateHealthScore.js`.

Behaviour of the code worth knowing:

- Neither AlertMessage resets its cursor on every new list. The web one resets it only when the new list holds at most one alert (`web-dashboard/src/components/AlertMessage.jsx:13-15`). The mobile one never does. A mobile list that shrinks under the cursor, and a web list that shrinks under the cursor but still holds more than one alert, show a blank badge until the next tick (`Rotation.Shown.Blank`).
- Before the first record, the placeholder score is 0 painted amber (`mobile-app/App.js:23-26`), which is not the band of 0. The model keeps the placeholder as written.

## Model

| member | source | states |
|---|---|---|
| `Telemetry.IsOnline` | mobile-app/App.js:57 | the device is online exactly when less than 5000 ms have passed since its last heartbeat (`now - lastActive < 5000`) |
| `Telemetry.OnlineExamples` | mobile-app/App.js:57 | 5 ms after a heartbeat the device is online and 5005 ms after it is offline; a heartbeat still at 0 is offline at every time from 5000 on |
| `Telemetry.OnlineBoundary` | web-dashboard/src/App.jsx:66 | the 5000 ms threshold is strict: online at 4999 ms after the heartbeat, offline at exactly 5000 ms |
| `Telemetry.OfflineIsPermanent` | mobile-app/App.js:56-61 | without a new heartbeat, an offline device stays offline at every later tick |
| `Telemetry.SpO2Gauge` | mobile-app/App.js:75 | the gauge shows 0 for the -999 no-reading sentinel and the reading otherwise, so it never shows the sentinel; a missing reading stays missing (same rule at web-dashboard/src/App.jsx:87) |
| `Telemetry.EcgValue` | mobile-app/App.js:44 | `ecgRaw \|\| 0` is the sample when it is present and 0 when it is missing |
| `HealthScore.CalculateHealthScore` | mobile-app/utils/calculateHealthScore.js:1-29 | the score is exactly 100 minus the sum of the penalties of the failed checks, so it lies in [45, 100] and the clamp and rounding never change it; the colour is the band of the score |
| `HealthScore.Band` | mobile-app/utils/calculateHealthScore.js:20-26 | red exactly below 60, amber exactly in [60, 80), green exactly from 80 on |
| `HealthScore.ColourCodes` | mobile-app/utils/calculateHealthScore.js:20-26 | the colour returned with the score is "#dc143c" below 60, "#e67e22" from 60 below 80, and "#27ae60" from 80 on |
| `HealthScore.FailedCheckCostsWeight` | mobile-app/utils/calculateHealthScore.js:5-15 | a failed check lowers the score by at least its weight; the -999 SpO2 sentinel costs 20 |
| `HealthScore.ThresholdBoundaries` | mobile-app/utils/calculateHealthScore.js:5-15 | heart rate 40 and 100, SpO2 95, body temperature 37.2, room temperature 18 and 35, humidity 20 and 80 cost nothing; heart rate 39 and 101 cost 10, SpO2 94 costs 20, body temperature 37.3 costs 10 |
| `HealthScore.AbsentFieldsNeverPenalise` | mobile-app/utils/calculateHealthScore.js:5-15 | a missing or NaN vital costs nothing; a record with none of the five vitals scores a green 100 |
| `HealthScore.AllViolations` | mobile-app/utils/calculateHealthScore.js:2-18 | all five checks failing gives 45, red: the penalties stack |
| `HealthScore.CombinedExample` | mobile-app/utils/calculateHealthScore.js:2-26 | heart rate 30, SpO2 90, body temperature 38, room temperature 40 and humidity 10 score 45, red |
| `HealthScore.BandMonotone` | mobile-app/utils/calculateHealthScore.js:21-26 | a higher score is never a more severe colour, so 60 and above is never red |
| `HealthScore.ScoreMonotone` | mobile-app/utils/calculateHealthScore.js:5-26 | failing more checks never raises the score and never lowers the severity |
| `AlertParsing.Split` | mobile-app/App.js:30 | `split(";")` yields one more piece than there are delimiters, and no piece holds a delimiter |
| `AlertParsing.TrimStart` | mobile-app/App.js:31 | the result is a suffix that starts with a non-space, and everything cut off is white space |
| `AlertParsing.TrimEnd` | mobile-app/App.js:31 | the result is a prefix that ends with a non-space, and everything cut off is white space |
| `AlertParsing.Trim` | mobile-app/App.js:31 | the result is trimmed (no white space at either end) and no longer than the input |
| `AlertParsing.TrimIsMiddle` | mobile-app/App.js:31 | the trimmed string is the slice of the input from some index k, and everything before k and after the slice is white space |
| `AlertParsing.TrimAll` | mobile-app/App.js:31 | `map(trim)` keeps the length and trims each element in place |
| `AlertParsing.NonEmpty` | mobile-app/App.js:32 | `filter(Boolean)` keeps exactly the non-empty strings, never more of them than the input |
| `AlertParsing.NonEmptyConcat` | mobile-app/App.js:32 | `filter(Boolean)` of a concatenation is the concatenation of the filtered parts, so the kept strings keep their order and their repetitions |
| `AlertParsing.ParseAlerts` | mobile-app/App.js:28-33 | a missing or empty message gives no alerts; every alert is non-empty, trimmed and free of `;`; there are at most (number of `;`) + 1 of them |
| `AlertParsing.TrimKeepsAbsent` | mobile-app/App.js:31 | trim adds no character, so a segment without `;` trims to a string without `;` |
| `AlertParsing.GuardIsRedundant` | mobile-app/App.js:28-33 | the falsy-string guard agrees with the chain itself: the chain maps "" to the empty list too |
| `AlertParsing.SplitConcat` | mobile-app/App.js:30 | splitting `a;b` gives the pieces of `a` followed by the pieces of `b` |
| `AlertParsing.SplitSingle` | mobile-app/App.js:30 | a string without `;` is a single piece |
| `AlertParsing.JoinSplit` | mobile-app/App.js:30 | joining the pieces with `;` restores the string |
| `AlertParsing.SplitJoin` | mobile-app/App.js:30 | splitting a `;`-join of delimiter-free pieces gives the pieces back |
| `AlertParsing.ParseConcat` | web-dashboard/src/App.jsx:36-41 | order: the alerts of `a;b` are those of `a` followed by those of `b`, none merged, dropped or deduplicated |
| `AlertParsing.ParseSingle` | mobile-app/App.js:28-33 | one segment yields its trimmed text, or nothing when it is blank |
| `AlertParsing.TrimTrimmed` | mobile-app/App.js:31 | trim leaves a trimmed string unchanged |
| `AlertParsing.ParseJoin` | mobile-app/App.js:28-33 | parsing the `;`-join of a non-empty list of clean alerts gives the list back |
| `AlertParsing.ParseIdempotent` | web-dashboard/src/App.jsx:36-41 | re-parsing the `;`-join of a parsed, non-empty alert list gives the same list |
| `AlertParsingExamples.TrimPadded` | mobile-app/App.js:31 | trim removes exactly the white-space padding around a trimmed text, and a blank string trims to "" |
| `AlertParsingExamples.ParsePadded` | mobile-app/App.js:30-32 | a padded alert parses to the alert alone |
| `AlertParsingExamples.ParseBlank` | mobile-app/App.js:32 | a blank segment parses to nothing |
| `AlertParsingExamples.ParsePaddedPair` | web-dashboard/src/App.jsx:38-40 | two padded alerts around a blank segment parse to the two alerts, in order |
| `AlertParsingExamples.ParseExample` | web-dashboard/src/App.jsx:36-41 | `"  Low SpO2 ; ;High Temp "` parses to `["Low SpO2", "High Temp"]` |
| `AlertParsingExamples.ParseKeepsDuplicates` | mobile-app/App.js:30-32 | the same alert twice is listed twice |
| `Waveform.Pushed` | mobile-app/App.js:43-47 | the new buffer is the tail of old + [sample]. It grows by one below capacity and keeps its length otherwise, because exactly one head sample is shifted out. It stays within capacity if the old buffer was, ends with the new sample, keeps the old buffer as a prefix below capacity, and at capacity drops only the oldest sample |
| `Waveform.LastNAppend` | web-dashboard/src/App.jsx:51-55 | cutting the history to its newest n samples before more arrive does not change the newest n afterwards |
| `Waveform.PushedIsLastN` | mobile-app/App.js:43-47 | from a buffer within capacity, one update keeps exactly the newest `capacity` samples of old + [sample] |
| `Waveform.PushedAllKeepsNewest` | web-dashboard/src/App.jsx:51-55 | from a buffer within capacity, any run of updates leaves exactly the newest `capacity` samples of the whole history, oldest first |
| `Waveform.OneOverCapacity` | mobile-app/App.js:44-45 | capacity + 1 samples into an empty buffer leave all but the first |
| `Rotation.Next` | mobile-app/components/AlertMessage.js:26 | an advance lands in [0, length), even from an index already out of range; it steps forward by one and wraps at the end |
| `Rotation.StepsWithinRound` | mobile-app/components/AlertMessage.js:26 | within one round, k advances from index i reach i + k and wrap once |
| `Rotation.FullRound` | web-dashboard/src/components/AlertMessage.jsx:10 | `length` advances from an index in range return to it (same step at mobile-app/components/AlertMessage.js:26) |
| `Rotation.EveryIndexReached` | web-dashboard/src/components/AlertMessage.jsx:10 | from any index in range, every alert is shown within one round |
| `Rotation.SingleAlertStays` | mobile-app/components/AlertMessage.js:26 | with a single alert the cursor never leaves 0 |
| `MobileAlertMessage.Rotator.constructor` | mobile-app/components/AlertMessage.js:5 | the cursor starts at 0 |
| `MobileAlertMessage.Rotator.Advance` | mobile-app/components/AlertMessage.js:8-39 | with an empty list nothing changes, because no cycle is scheduled; otherwise the cursor takes one rotation step and lands inside the list |
| `MobileAlertMessage.Rotator.SetMessages` | mobile-app/components/AlertMessage.js:4-5 | a new list leaves the cursor where it was |
| `MobileAlertMessage.Rotator.Display` | mobile-app/components/AlertMessage.js:41-55 | "No health issues" exactly for an empty list; the alert under the cursor when it is in range; blank exactly when a non-empty list is shorter than the cursor |
| `MobileAlertMessage.ShrinkScenario` | mobile-app/components/AlertMessage.js:26-52 | with three alerts and the cursor on the third, a list shrunk to two shows a blank badge, and the next cycle shows the second alert |
| `WebAlertMessage.Rotator.constructor` | web-dashboard/src/components/AlertMessage.jsx:4 | the cursor starts at 0 |
| `WebAlertMessage.Rotator.Advance` | web-dashboard/src/components/AlertMessage.jsx:8-12 | the cursor takes one rotation step and lands inside the list when the list holds more than one alert; otherwise there is no interval and nothing changes |
| `WebAlertMessage.Rotator.SetMessages` | web-dashboard/src/components/AlertMessage.jsx:13-16 | a list of at most one alert resets the cursor to 0; a longer one keeps it; a list of at most one alert always has its cursor at 0 |
| `WebAlertMessage.Rotator.Display` | web-dashboard/src/components/AlertMessage.jsx:18-26 | "No health issues" exactly for an empty list; a single alert is always shown; the alert under the cursor when it is in range; blank exactly when a longer list has shrunk under the cursor |
| `WebAlertMessage.ResetScenario` | web-dashboard/src/components/AlertMessage.jsx:7-26 | with three alerts and the cursor on the third, a list shrunk to two shows a blank badge, the next tick shows the second alert, and a list of one alert resets the cursor and shows it |
| `MobileApp.Dashboard.constructor` | mobile-app/App.js:10-26 | the initial record, an empty buffer, the placeholder score 0 in amber, and a first liveness check against heartbeat 0 |
| `MobileApp.Dashboard.OnValue` | mobile-app/App.js:38-52 | the listener replaces the record, updates the buffer with `{x: now, y: ecgRaw \|\| 0}` keeping it within 50, recomputes the score, and leaves the online flag alone |
| `MobileApp.Dashboard.Render` | mobile-app/App.js:28-33 | the badge receives the alert list parsed from the current record, with its cursor kept |
| `MobileApp.Dashboard.OnSnapshot` | mobile-app/App.js:38-61 | the record is replaced; the buffer is updated with `{x: now, y: ecgRaw \|\| 0}` and stays within 50; the score is recomputed; the badge gets the new alert list with its cursor kept; liveness is re-checked when the heartbeat changed, else the flag is kept |
| `MobileApp.Dashboard.CheckStatus` | mobile-app/App.js:56-61 | the tick sets the online flag to the liveness of the current heartbeat and changes nothing else |
| `WebApp.Dashboard.constructor` | web-dashboard/src/App.jsx:16-34 | the initial record, an empty buffer, the placeholder score 0 in amber, and a first liveness check against heartbeat 0 |
| `WebApp.Dashboard.OnValue` | web-dashboard/src/App.jsx:44-60 | the listener replaces the record, updates the buffer with `{value: ecgRaw \|\| 0}` keeping it within 100, recomputes the score, and leaves the online flag alone |
| `WebApp.Dashboard.Render` | web-dashboard/src/App.jsx:36-41 | the badge receives the alert list parsed from the current record, with its cursor reset to 0 when the list holds at most one alert |
| `WebApp.Dashboard.OnSnapshot` | web-dashboard/src/App.jsx:44-73 | the record is replaced; the buffer is updated with `{value: ecgRaw \|\| 0}` and stays within 100; the score is recomputed; the badge gets the new alert list, with its cursor reset to 0 when the list holds at most one alert; liveness is re-checked when the heartbeat changed, else the flag is kept |
| `WebApp.Dashboard.CheckStatus` | web-dashboard/src/App.jsx:64-73 | the tick sets the online flag to the liveness of the current heartbeat and changes nothing else |

## Left out

- Database wiring (`ref`, `onValue`, `snapshot.exists()`, `val()`): the subscription is not modelled. A record that exists arrives as an `OnSnapshot` call. The `firebaseConfig` module is not part of this model.
- Timers (`setInterval`, `setTimeout`, `clearInterval`) and effect clean-up: each tick is an explicit `Advance` or `CheckStatus` call. The 1000 ms and 1600 ms cadences are not modelled.
- `MobileAlertMessage.Rotator.Advance`: the model does not cover a fade cycle that is already in flight when the list changes. Such a cycle finishes with the length of the old list, so it can leave the cursor outside the new list. In the model every advance uses the current list.
- `WebAlertMessage.Rotator.SetMessages`: the model applies the reset together with the new list. In the source the component first renders `alertMessages[current]` with the old cursor once (blank when out of range), and only then does the effect reset the cursor to 0. That single transient render is not modelled.
- Mobile fade animation (`Animated.timing`, 300 ms fades): presentation only. Its end is what triggers `Advance`.
- `Date.now()` and `new Date().getFullYear()`: `now` is a parameter. The footer year is presentation only.
- Gauge fill fractions, the Fahrenheit conversion with `toPrecision(4)`, JSX, styles and icons: floating-point formatting and presentation.
- `mobile-app/components/ECGChart.js` and `web-dashboard/src/components/ECGChart.jsx`: chart wrappers with no logic.
- `leadsOff`: carried in the record but read by no logic.
- A `lastActive` that is missing or not a number: the model takes it to be an integer. In JavaScript such a value makes the comparison false, so the device reads as offline.
- Vitals that are `null`, strings or booleans: these are coerced by JavaScript comparisons and are not modelled. Only a number (`Some`) or `undefined`/`NaN` (`None`) is modelled.
- An `alertMessage` that is truthy but not a string: `split` would throw on it. Not modelled.
- `AlertParsing.IsSpace` follows the ECMAScript white-space set listed in its comment, over Unicode scalar values rather than UTF-16 code units.
- `Waveform.Pushed` requires a capacity of at least 1. Both callers pass 50 or 100; the source does not say what a capacity of 0 would mean.
- Repeated App renders re-run the `AlertMessage` effects with a list equal to the current one. For the web component this affects only timing. For the mobile one, the case of a fade cycle in flight is covered in the `Advance` line above.
