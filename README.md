# Channel-archive alignment, modelled in Dafny

The system fetches the last hour of archived samples for a handful of named
control-system channels (beam power, mass flow rate, inlet and outlet
temperature and pressure). It converts each row's timestamp to seconds, then
aligns all the series on one shared, evenly spaced time axis by linear
interpolation. Small driver scripts read the channel names from `key=value`
configuration files, check the command-line options and gather the aligned
arrays into a dictionary.

This project models that core on exact reals and unbounded integers, and
proves what it computes:

- `Numeric`: `numpy.linspace` and `numpy.interp` as specification functions,
  with their shape, clamping, exactness-at-knots and range lemmas.
- `ChannelHelper`: the row-time conversion loop of `getChannelData`, and
  `align`, which has one pass for the longest length and the overlap window,
  the linspace axis, and one resampled array per input, in order.
- `ChronoAlign`: `chronoAlign`, which returns the earliest time followed by
  every value in argument order.
- `Timestamps`: Python datetimes as (proleptic ordinal, hour, minute, second,
  microsecond), their ordering, and the microseconds elapsed since 1970-01-01.
- `Text` and `ConfigLines`: Python 2 `str.strip`, `split('=')` with its
  two-name unpacking, and the skip-blank-and-`#` line classification that both
  driver scripts share.
- `Connection`: the channel and table lists of `src/Connection.py`, its date
  check, its `-sample` option and its `data` dictionary.
- `EasyConn`: the `confs` dictionary of `easy_conn.py`, the optional beam-power
  channel, the channel lookups and the choice of series passed to `align`.
- `Results`: the `Option` and `Result` wrappers the error paths use.

Loops in the source are methods with loop invariants. Each method is proved
against a specification function (`ReadValues` against `ConfigValues`,
`ReadConfig` against `ConfigMap`, `Align` against `MaxLen`, `LatestStart`,
`EarliestStop`, `Linspace` and `Interp`). The lemmas state what those
functions guarantee.

`ChannelHelper.align` rejects only an empty series, and the model does the same:

- Non-overlapping inputs are not rejected. They give a decreasing axis (`Numeric.LinspaceInverted`).
- Empty series are not skipped. The first one makes `align` fail with `IndexError` (`ChannelHelper.Align`).
- Zero series give an empty axis and no arrays, not an error.
- The axis always has the longest series' length.

## Model

| member | source | states |
|---|---|---|
| Timestamps.Before | chronoAlign.py:35 | datetime `<`: a datetime on an earlier day is before one on a later day, a later day never is, and nothing is before itself |
| Timestamps.MicrosSinceEpoch | ChannelHelper.py:59 | for a valid datetime, the whole seconds of the count are the days since 1970-01-01 times 86400 plus the seconds of the day, and the remainder is the microsecond field |
| Timestamps.MicrosMonotone | ChannelHelper.py:59 | for valid datetimes, `a` is before `b` exactly when `a`'s elapsed microseconds since 1970-01-01 are smaller |
| ChannelHelper.RowTime | ChannelHelper.py:57-59 | a row's time is its seconds since 1970-01-01 plus 14400 (the four-hour UTC correction) |
| ChannelHelper.RowTimeOrder | ChannelHelper.py:56-59 | the conversion keeps chronological order in both directions: `a` before `b` iff `RowTime(a) < RowTime(b)` |
| ChannelHelper.GetChannelData | ChannelHelper.py:55-62 | one sample per fetched row, in query order, holding the converted time and the row's value |
| ChannelHelper.ConvertedTimesSorted | ChannelHelper.py:52-59 | rows ordered by sample time give a series whose times never decrease |
| ChannelHelper.RowTimeInsideSentinels | ChannelHelper.py:85-86 | every converted time lies strictly between `timedelta.min` and `timedelta.max` in seconds, so the first series always replaces both initial values |
| ChannelHelper.MaxLenIsLongest | ChannelHelper.py:84-93 | `max_len` is at least every series' length and equals one of them; it is 0 for no series |
| ChannelHelper.LatestStartIsLatest | ChannelHelper.py:85-102 | `latest_start` is at least every first time above the sentinel, and is the sentinel or one of the first times |
| ChannelHelper.EarliestStopIsEarliest | ChannelHelper.py:86-104 | `earliest_stop` is at most every last time below the sentinel, and is the sentinel or one of the last times |
| ChannelHelper.WindowIsIntersection | ChannelHelper.py:95-104 | for real timestamps the window is the maximum of the first times and the minimum of the last times, each attained by some series |
| ChannelHelper.Scan | ChannelHelper.py:84-104 | the first loop yields the longest length, latest start and earliest stop, or fails at the first series without rows |
| ChannelHelper.Align | ChannelHelper.py:64-124 | fails iff some series is empty, and names the first one; otherwise the axis is `Linspace(latest start, earliest stop, longest length)` and there is one array per input, in input order, each that input resampled onto the axis |
| ChannelHelper.Resample | ChannelHelper.py:119-122 | one value per axis point, and every interpolated value lies between the smallest and the largest value of its own series |
| ChannelHelper.ResampleOwnTimes | ChannelHelper.py:119-122 | resampling a strictly increasing series at its own times gives back its values |
| ChannelHelper.OverlapMeansNoClamping | ChannelHelper.py:107-122 | when the series overlap, every axis point lies inside every series' own time range |
| Numeric.Linspace | ChannelHelper.py:109-111 | exactly `num` points, the first of them the start |
| Numeric.LinspaceShape | ChannelHelper.py:109-111 | with two or more points the axis starts exactly at the start, ends exactly at the stop, and consecutive points are one step apart |
| Numeric.LinspaceSingle | ChannelHelper.py:109-111 | a one-point axis is the start alone |
| Numeric.LinspaceWithin | ChannelHelper.py:109-111 | over an ordered window every point lies in the window and the axis never decreases; it strictly increases when start < stop |
| Numeric.LinspaceInverted | ChannelHelper.py:109-111 | over an inverted window (no overlap) no error is raised and the axis strictly decreases |
| Numeric.InterpClamped | ChannelHelper.py:121 | below the first knot the result is the first value, and from the last knot on it is the last value, with no extrapolation |
| Numeric.InterpBetweenKnots | ChannelHelper.py:121 | between two consecutive knots the result is the linear blend of their two values |
| Numeric.InterpAtKnot | ChannelHelper.py:121 | with strictly increasing knots, interpolating at a knot returns that knot's value |
| Numeric.Interp | ChannelHelper.py:121 | whatever the knots, the result lies between the minimum and the maximum of the values |
| ChronoAlign.Earliest | chronoAlign.py:26-36 | the earliest time is not after any given time and is one of them |
| ChronoAlign.ChronoAlign | chronoAlign.py:18-39 | fails iff no pair is given; otherwise n+1 elements, the earliest time first, then the values in argument order |
| Text.Strip | easy_conn.py:26 | the result is empty iff the line is all whitespace, and it neither starts nor ends with whitespace |
| Text.StripSlice | easy_conn.py:26 | what `strip()` keeps is a slice of the line with only whitespace before and after it |
| Text.StripIdempotent | src/Connection.py:68 | stripping twice is stripping once |
| Text.Split | src/Connection.py:67 | `split('=')` gives one more piece than there are `=` in the line, and no piece holds `=` |
| Text.JoinSplit | src/Connection.py:67 | joining the pieces of `split('=')` with `=` gives back the line |
| Text.SplitJoin | src/Connection.py:67 | splitting pieces that hold no `=` after joining them with `=` gives back the pieces |
| ConfigLines.Classify | src/Connection.py:64-67 | a line is skipped iff it is blank or a `#` comment after stripping; otherwise it is an unpacking error iff it holds other than one `=` (too few values iff none); an entry's key and value rebuild the stripped line around its single `=` |
| ConfigLines.EntryRoundTrip | easy_conn.py:26-30 | a `key=value` line with no outer whitespace, not starting with `#`, reads back as exactly that key and value |
| Connection.LineValues | src/Connection.py:64-70 | one line fails iff it is an unpacking error; a blank or `#` line adds nothing; an entry adds its stripped right-hand side when that is non-empty and nothing otherwise |
| Connection.ConfigValuesMembers | src/Connection.py:64-70 | the values read are exactly the non-empty stripped right-hand sides of the entry lines |
| Connection.ConfigValuesRoundTrip | src/Connection.py:61-70 | writing `key=value` lines for plain keys and values and reading them back gives the values, in order |
| Connection.ConfigValuesAppend | src/Connection.py:61-70 | reading lines `a` then `b` yields `a`'s values followed by `b`'s, or the first error, so values keep file order |
| Connection.SkippedLineIgnored | src/Connection.py:64-66 | inserting a blank or `#` line anywhere leaves the result unchanged |
| Connection.ConfigValues | src/Connection.py:61-81 | reading fails iff some kept line does not hold exactly one `=`; otherwise there are at most as many values as lines |
| Connection.ConfigValuesClean | src/Connection.py:68-70 | every value read is non-empty, already stripped and free of `=` |
| Connection.FailurePersists | src/Connection.py:67 | an error in a prefix of the file is the result for the whole file |
| Connection.ReadValues | src/Connection.py:61-81 | the reading loop returns exactly `ConfigValues(lines)` (the same loop reads `tables.conf`) |
| Connection.DatesAccepted | src/Connection.py:49-51 | the run goes on iff the start date is strictly before the end date |
| Connection.IndexOf | src/Connection.py:94 | `list.index` returns the first position holding the element |
| Connection.SelectSample | src/Connection.py:92-98 | `avg` without `-sample`; otherwise the word after its first occurrence names the mode; a missing word is an error iff `-sample` is last; only `-sample` can cause an error |
| Connection.SampleOptionRoundTrip | src/Connection.py:92-98 | `-sample` followed by a mode's name selects exactly that mode, whatever follows |
| Connection.DataAfterKeys | src/Connection.py:113-117 | after `n` channels the keys are `Time` and the first `n` channel names |
| Connection.DataAfterLastWins | src/Connection.py:116-117 | a channel maps to the array after its last occurrence |
| Connection.DataAfterTime | src/Connection.py:115 | `Time` keeps the time axis unless a channel of that name overwrites it |
| Connection.AssembleData | src/Connection.py:113-117 | fails iff there are fewer arrays than channels plus one; otherwise the keys are `Time` and the channels, each channel maps to the array of its last occurrence, and `Time` maps to the first array unless overwritten |
| EasyConn.ConfigMap | easy_conn.py:23-30 | reading fails iff some kept line does not hold exactly one `=` |
| EasyConn.MapFailurePersists | easy_conn.py:29 | an error in a prefix of the file is the result for the whole file |
| EasyConn.ConfigMapKeys | easy_conn.py:24-30 | the dictionary's keys are exactly the keys some line sets |
| EasyConn.LastAssignmentWins | easy_conn.py:30 | a key's value is the unstripped value from the last line that sets it |
| EasyConn.ReadConfig | easy_conn.py:23-30 | the reading loop returns exactly `ConfigMap(lines)` |
| EasyConn.BeamPowerChannel | easy_conn.py:32-34 | a beam-power channel exists iff its key is present with a value that is not all whitespace, and it is that value unstripped |
| EasyConn.LookupChannels | easy_conn.py:37-45 | succeeds iff every required key is present, giving each channel its key's value; on failure the key reported is missing |
| EasyConn.PressureChannelsCoincideAsWritten | easy_conn.py:19-20 | with the key as written, the inlet and outlet pressure channels are always the same |
| EasyConn.PressureInIgnoredAsWritten | easy_conn.py:44 | as written, setting, changing or removing `pressure_in_channel_name` leaves the lookups unchanged, for every configuration |
| EasyConn.ReadChannels | easy_conn.py:37-45 | with the intended key, the lookups succeed iff every required key is present, and the inlet pressure comes from `pressure_in_channel_name` |
| EasyConn.PressureInFollowsConfig | easy_conn.py:44-45 | with the intended key, for every configuration, distinct configured pressure channels give distinct inlet and outlet channels |
| EasyConn.ChannelsToFetch | easy_conn.py:52-60 | six channels are fetched when there is a beam-power channel (it comes first), five otherwise, ending with flow, temperature in, temperature out, pressure in, pressure out |
| EasyConn.AlignChannels | easy_conn.py:62-65 | `align` fails iff one of the series passed is empty, naming the first; otherwise the axis is the linspace from the latest start to the earliest stop of the series passed, with the longest length, and it gives six arrays with the beam power first, or five, in the fixed order flow, temperature in, temperature out, pressure in, pressure out, each its series resampled onto the axis |

## Left out

- Database access: the Oracle connection, the SQL query and its cursor are left out. `GetChannelData` takes the fetched rows as a parameter.
- The one-hour window `getChannelData` takes from `datetime.now()` depends on the wall clock and is left out.
- Opening and reading the configuration files is left out, along with `sys.argv` parsing beyond the `-sample` option, `sys.exit`, the help text and every `print`. The table printing at the end of `easy_conn.py` is also left out.
- Plotting, the Excel import and export, and the 2-D interpolation functions built from `tables.conf` are left out. They are matplotlib, pandas and scipy calls whose behaviour is not part of this model.
- `ChannelData.alignChannelData` is called by `src/Connection.py` with up/down/avg policies, but `ChannelData.py` is not part of this model. Only `ChannelHelper.align` is modelled. It always uses the longest length.
- Timestamps and values are exact reals, so floating-point rounding in `total_seconds`, `linspace` and `interp` is not modelled. Nor are NaN or infinite values.
- Calendar dates are not checked against the calendar. Dates are given by their proleptic Gregorian ordinal, so converting year/month/day to an ordinal is not modelled, and neither is `strptime` with the `%d/%m/%Y` format.
- Text.Strip uses the whitespace set of a Python 2 byte string (space, tab, newline, return, vertical tab, form feed). Unicode whitespace is not modelled.
- Numeric.Interp matches `numpy.interp` for knots that never decrease. That is what rows ordered by sample time produce (`ChannelHelper.ConvertedTimesSorted`). numpy leaves the result for unsorted knots unspecified, and the model does not claim to reproduce it.
- Concurrency does not arise in these scripts.

## Findings

| source | as written | input that shows it | evidently intended | confidence | as-written member | corrected member |
|---|---|---|---|---|---|---|
| easy_conn.py:19 | `Keys.pressure_in` is `'pressure_out_channel_name'`, so the inlet pressure is read from the outlet pressure's key | a configuration with `pressure_in_channel_name=PI` and `pressure_out_channel_name=PO` (plus the flow and temperature keys) yields the pressure channels `PO` and `PO` | `Keys.pressure_in = 'pressure_in_channel_name'`, which yields `PI` and `PO` | high, not executed | EasyConn.PressureInIgnoredAsWritten | EasyConn.PressureInFollowsConfig |
