# Running calculator: the arithmetic core

A Dafny model of the calculations inside the `App` component of a React running
calculator. The component has three tabs. Each one recomputes its figures from the
form on every change:

- **Pace converter**: a pace in minutes and seconds per kilometre becomes a pace per
  mile. It uses the factor 1.60934 and shows floored minutes plus rounded seconds.
- **Split calculator**: a target time and a distance give the average pace per
  kilometre. They also give one cumulative split per whole kilometre, which is the
  unrounded average pace times the kilometre number.
- **Training zones**: a race preset (5k, 10k, half, marathon) and a race time give a
  reference pace per kilometre. Four zones scale that pace: easy ×1.25, tempo ×1.08,
  interval ×0.95 and repetition ×0.90. Each zone is shown per kilometre and per mile.

All three share the time codec. `timeToSeconds` turns a form's hours, minutes and
seconds into total seconds. `formatTime` writes a number of seconds as `H:MM:SS`, or as
`M:SS` when it is under an hour.

Modules, one file each:

- `JsMath` (`js_math.dfy`): `Math.round` as `(x + 0.5).Floor`, and `%` on non-negative
  reals. `Math.floor` is Dafny's `.Floor`.
- `Text` (`text.dfy`): `toString` of a non-negative integer, `padStart`, and a reader.
  The reader splits a display at its colons and reads each field back as a number.
  The round-trip lemmas are stated with it.
- `TimeCodec` (`time_codec.dfy`): `timeToSeconds`, the `formatTime` components, and
  `formatTime` itself.
- `PaceConverter` (`pace_converter.dfy`): the km-to-mile pace conversion and its display.
- `SplitCalculator` (`split_calculator.dfy`): the average pace and the loop that builds
  the splits table. The loop is a method with invariants.
- `TrainingZones` (`training_zones.dfy`): the preset table, the reference pace, the
  four zones and their per-km and per-mile displays.

Numbers:

- Seconds from the form are `int`, because the form parses them with `parseInt`.
- The converter's km pace comes in as two `int`s, minutes and seconds, and becomes a `real` only inside `MinPerMile`. The mile pace, split and zone paces, distances and the 1.60934 factor are exact `real`s.
- Integers leave the model as decimal digit strings.

The model keeps the source's behaviour where the rounded seconds reach 60 and are not
carried into the minutes. `formatTime(59.5)` is `"0:60"`, and a pace of 0:37/km is shown
as `0:60` per mile. Lemmas exhibit both.

## Model

| member | source | states |
|---|---|---|
| JsMath.Round | src/App.jsx:35 | The result is the integer nearest to x, with a half rounded upward: r − ½ ≤ x < r + ½ (Math.round). |
| JsMath.Mod | src/App.jsx:34-35 | For x ≥ 0 and n > 0, the remainder lies in [0, n), is at most x, and x minus it is a whole multiple of n. |
| Text.Show | src/App.jsx:38-40 | toString of a non-negative integer is a non-empty digit string. It has no leading zero, has one digit exactly when n < 10, and starts with '0' only for 0. |
| Text.ValueOfShow | src/App.jsx:38-40 | Reading the digits of toString back gives the number (toString is injective). |
| Text.PadStart | src/App.jsx:38-40 | padStart leaves a string of at least the width unchanged. Otherwise it left-fills with the fill character up to exactly the width and keeps the original as suffix. |
| Text.Pad2 | src/App.jsx:38-40 | n.toString().padStart(2, '0') is the digits of n with one '0' in front when n < 10 and unchanged otherwise; it is all digits, and exactly two characters for n < 100. |
| Text.Pad2Digits | src/App.jsx:38-40 | For n < 100, the zero-padded field is exactly two digits and denotes n. |
| TimeCodec.TimeToSeconds | src/App.jsx:27-29 | Total seconds are non-negative for non-negative fields and never less than the hours' worth of seconds. |
| TimeCodec.Components | src/App.jsx:32-35 | For t ≥ 0: hours ≥ 0, minutes in [0, 59], seconds in [0, 60], and t lies within the minute that hours and minutes name (hours·3600 + minutes·60 ≤ t < that + 60): the minutes field is the whole minute t lies in, and a seconds field of 60 is not carried. |
| TimeCodec.ComponentsTotal | src/App.jsx:33-35 | hours·3600 + minutes·60 + seconds equals Math.round(t), so the display is t to the nearest second. |
| TimeCodec.SixtyOnlyWhenFractional | src/App.jsx:35 | A seconds field of 60 happens only when t is not a whole number. |
| TimeCodec.SixtyIsReachable | src/App.jsx:35-40 | 59.5 s gives components (0, 0, 60) and is displayed "0:60". |
| TimeCodec.Display | src/App.jsx:37-40 | The text ends with ':' and two digits, and the part before that holds a colon exactly when hours > 0 (the "H:MM:SS" branch). |
| TimeCodec.FormatTime | src/App.jsx:32-41 | The display is at least four characters and ends with ':' and two digits. |
| TimeCodec.FormatTimeLayout | src/App.jsx:37-40 | It has three colon-separated fields exactly when hours > 0, and two exactly when hours = 0. The first field is unpadded canonical digits; every later field is exactly two digits. |
| TimeCodec.FormatTimeReading | src/App.jsx:32-41 | Reading the display back gives [hours, minutes, seconds] when hours > 0, else [minutes, seconds]. |
| TimeCodec.FormatTimeMeaning | src/App.jsx:32-41 | The display reads back as its components, and those add up to Math.round(t) seconds. |
| TimeCodec.ComponentsOfTime | src/App.jsx:27-35 | For h ≥ 0 and 0 ≤ m, s < 60, the components of timeToSeconds(h, m, s) are exactly (h, m, s). |
| TimeCodec.TimeRoundTrip | src/App.jsx:27-41 | formatTime of timeToSeconds(h, m, s) reads back as h, m, s ([m, s] when h = 0) for h ≥ 0 and 0 ≤ m, s < 60. |
| PaceConverter.MinPerMile | src/App.jsx:22 | The mile pace times 60 is the km pace in seconds times 1.60934. |
| PaceConverter.ConvertPace | src/App.jsx:22-24 | Whole minutes are the floor of the mile pace. Seconds lie in [0, 60]. minutes·60 + seconds is within half a second of the exact mile pace. |
| PaceConverter.PaceText | src/App.jsx:147 | For seconds below 100, the output line is at least four characters and ends with ':' and two digits. |
| PaceConverter.PaceTextReading | src/App.jsx:147 | The "M:SS" output line reads back as the minutes and seconds it shows. |
| PaceConverter.ConvertPaceNonNegative | src/App.jsx:23 | Non-negative km inputs give non-negative whole minutes per mile. |
| PaceConverter.QuickReference | src/App.jsx:158-161 | 5:00→8:03, 4:00→6:26, 3:30→5:38 and 3:00→4:50 per mile, as values and as displayed text. |
| PaceConverter.SixtySecondsShown | src/App.jsx:22-24 | 0:37/km converts to (0, 60) and is displayed "0:60". |
| SplitCalculator.AveragePace | src/App.jsx:45 | The pace times the distance is the target time. It is non-negative for a non-negative target. |
| SplitCalculator.SplitSeconds | src/App.jsx:50 | The split at kilometre i times the distance is totalSeconds·i. It is non-negative for non-negative inputs. |
| SplitCalculator.ComputeSplits | src/App.jsx:46-52 | Exactly floor(distance) rows. Row k has km = k + 1 and time = formatTime(pacePerKm·(k + 1)). |
| SplitCalculator.SplitStep | src/App.jsx:45-50 | Consecutive splits differ by exactly the average pace, with no accumulated rounding. |
| SplitCalculator.SplitsMonotone | src/App.jsx:47-50 | For a non-negative target, later splits are never earlier, both exactly and as displayed seconds. |
| SplitCalculator.SplitNoDrift | src/App.jsx:45-50 | Every displayed split is totalSeconds·i / distance rounded to the nearest second. |
| SplitCalculator.LastSplitIsTarget | src/App.jsx:45-50 | For a whole distance n ≥ 1, the n-th split is exactly the target time. |
| SplitCalculator.DefaultFormExample | src/App.jsx:44-52 | 10 km in 50:00 averages "5:00" and the 10 km split shows "50:00". |
| SplitCalculator.PartKilometreTable | src/App.jsx:46-52 | 50:00 over 10.7 km gives exactly ten rows, for kilometres 1 to 10, through `ComputeSplits`; the part kilometre has no row. |
| TrainingZones.RacePacePerKm | src/App.jsx:55-63 | The reference pace times the preset distance is the race time in seconds. It is non-negative for a non-negative time. |
| TrainingZones.PresetTable | src/App.jsx:55-60 | The presets are exactly 5k, 10k, half and marathon. All are positive, and the half is half the marathon. |
| TrainingZones.Zones | src/App.jsx:66-71 | There are four zones, titled Easy Run, Tempo/Threshold, Interval and Repetition in that order, zone k's pace being the reference pace times the k-th multiplier. |
| TrainingZones.ZonesOrdered | src/App.jsx:66-71 | For a positive reference pace: repetition < interval < reference < tempo < easy. |
| TrainingZones.ZonesMonotone | src/App.jsx:66-71 | A reference pace no slower gives no slower a pace in every zone, and a strictly faster one a strictly faster pace in every zone. |
| TrainingZones.ZonePacePerMile | src/App.jsx:331 | The mile figure divided by 1.60934 is the km pace; it exceeds the km pace when the pace is positive, and is 0 for pace 0. |
| TrainingZones.ZoneDisplay | src/App.jsx:328-331 | For a non-negative pace, the mile figure is non-negative too, and both lines end with ':' and two digits of seconds. |
| TrainingZones.ZoneDisplayReading | src/App.jsx:328-331 | Each line of a zone card reads back as the hours (when there are any), minutes and seconds of its pace, and these add up to the km pace, resp. the km pace times 1.60934, rounded to the nearest second. |
| TrainingZones.FiveKExample | src/App.jsx:62-71 | A 25:00 5k gives 300 s/km, easy "6:15"/km and "10:04"/mile, and interval "4:45"/km. |

## Left out

- React state, tab switching, JSX rendering and styling: these are presentation. The form's state is passed in as parameters instead.
- Input parsing in the change handlers (`parseInt(...) || 0`, `parseFloat(...) || 1`): operations receive already-parsed numbers.
- IEEE-754 doubles: the model computes with exact reals. A JavaScript result can differ only where a double's rounding error crosses a floor or round boundary.
- JavaScript `%` on negative numbers, and negative or zero distances: `FormatTime` requires a non-negative time, `AveragePace` and `SplitSeconds` require a positive distance, and `ComputeSplits` requires both a positive distance and a non-negative target time. The model does not give JavaScript's sign semantics for `%`.
- `toString` for numbers of 10^21 or more (exponent notation) and for non-finite values: only integers from floor and round are shown.
- A race key outside the four presets: the selector only offers those four, so `RacePacePerKm` requires one. In JavaScript the lookup would give `undefined` and the pace would be NaN.
- PaceConverter.PaceText: negative converter output is not displayed. `Text.Show` takes a non-negative integer, so `PaceText` requires non-negative minutes and seconds. In the source a negative km pace such as -1:00 (`parseInt("-1") || 0` is -1) reaches the display at line 147 as "-2:23".
