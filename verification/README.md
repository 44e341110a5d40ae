# Bike-share MapReduce mappers in Dafny

This project models the per-line logic of two Hadoop MapReduce jobs over bike-share
trip CSV files, and proves properties about it:

- **PopularStations**: `PopularStationsMapper.map` turns one trip line into the start
  and end station names. Both names are trimmed, and empty, `NULL` or `NA` cells are
  dropped. Each name is emitted with a count of 1.
- **BusiestHour**: `BusiestHourMapper.setup` loads a set of "top stations" from the
  cached file `top_stations.txt`. `BusiestHourMapper.map` then turns a trip that starts
  at a top station into the key `<station>_<WEEKDAY>_<hh>`. The weekday and hour come
  from the start time, which is parsed with the pattern `M/d/yyyy h:mm:ss a`.
- The per-key counting that consumes the keys. The reducer class is also used as the
  combiner. The reducer's source is not part of this model, so it is modelled as
  summing counts per key.

One call of `map` is a pure function from a byte offset and a line to a
`MapOutcome`. The outcome is one of three things:

- `Emit(keys)`: the keys written, in write order.
- `Skip(reason)`: a silent or logged return.
- `Fail(error)`: the `ArrayIndexOutOfBoundsException` a short line throws.

`setup` is a function from the cache paths and a map of file contents to a
`Result`. It also has a method that runs the same loop the Java code runs.

Modules, one per file:

| file | module | contents |
|---|---|---|
| wrappers.dfy | `Wrappers` | `Option`, `Result` |
| java_strings.dfy | `JavaStrings` | `split(",", -1)`, `join`, `trim`, `contains`, `endsWith`, ASCII `equalsIgnoreCase`, `replace("\"", "")` |
| decimal.dfy | `Decimal` | zero-padded decimal rendering (`%02d`, pattern widths) and its value |
| calendar.dfy | `Calendar` | proleptic Gregorian dates, epoch day, `DayOfWeek` |
| timestamp.dfy | `Timestamp` | the `M/d/yyyy h:mm:ss a` parser and printer, 12/24-hour clock |
| ride_record.dfy | `RideRecord` | the header rule, the comma split, the outcome datatype |
| popular_stations.dfy | `PopularStations` | the popularity mapper |
| busiest_hour.dfy | `BusiestHour` | bucket keys, the busiest-hour mapper, `setup` |
| counting.dfy | `Counting` | per-key tallies, merge, combiner transparency |
| pipeline.dfy | `Pipeline` | a map task over a sequence of records |
| popularity_examples.dfy | `PopularityExamples` | worked popularity lines end to end |
| hour_examples.dfy | `HourExamples` | worked start times and bucket keys |

Behaviour of the mapper code that may surprise a reader:

- An empty top-station set is not fatal. `setup` prints a warning and every line then
  emits nothing (BusiestHour/BusiestHourMapper.java:52-53).
- The cache file is found by a suffix test on the URI path, not by its `#top_stations.txt`
  alias. A matching path whose file cannot be opened throws.
- A line with too few columns throws instead of being skipped.
- A start time in ISO layout such as `2024-01-15 08:30:00.000` does not fit
  `M/d/yyyy h:mm:ss a`; it is logged and skipped (`HourExamples.IsoLayoutRejected`).

## Model

| member | source | states |
|---|---|---|
| JavaStrings.Split | PopularStations/PopularStationsMapper.java:28 | `split(",", -1)` gives one more part than the line has commas, and no part contains a comma |
| JavaStrings.JoinSplit | PopularStations/PopularStationsMapper.java:28 | joining the parts of a split with the delimiter gives the original text back, so trailing empty fields are kept |
| JavaStrings.SplitJoin | PopularStations/PopularStationsMapper.java:28 | splitting the join of comma-free parts gives those parts back |
| RideRecord.FieldsOfLine | BusiestHour/BusiestHourMapper.java:70-71 | a line has exactly one more field than commas, and the fields join back to the line |
| RideRecord.FieldsOfColumns | PopularStations/PopularStationsMapper.java:28 | a record written as comma-free columns splits back into exactly those columns, because there is no quoting |
| JavaStrings.Trim | PopularStations/PopularStationsMapper.java:30-31 | `trim()` returns a contiguous slice of the input with only characters at or below U+0020 removed around it, and it neither starts nor ends with one |
| JavaStrings.TrimOfPadded | BusiestHour/BusiestHourMapper.java:73 | trimming blank padding around a trimmed text gives that text |
| JavaStrings.TrimIdempotent | BusiestHour/BusiestHourMapper.java:43 | trimming twice is trimming once |
| JavaStrings.ContainsIff | PopularStations/PopularStationsMapper.java:24 | `contains` holds exactly when the pattern occurs at some index |
| JavaStrings.EndsWithConcat | BusiestHour/BusiestHourMapper.java:38 | a suffix no longer than `b` ends `a + b` exactly when it ends `b`; a longer suffix of `a + b` must itself end with `b` |
| JavaStrings.EqualsIgnoreCaseNA | PopularStations/PopularStationsMapper.java:33 | a text equals `NA` ignoring case exactly when it is one of `NA`, `Na`, `nA`, `na` |
| JavaStrings.EqualsIgnoreCaseNULL | PopularStations/PopularStationsMapper.java:33 | a text equals `NULL` ignoring case exactly when each of its four letters is `N`, `U`, `L`, `L` in either case |
| JavaStrings.RemoveChar | BusiestHour/BusiestHourMapper.java:77 | `replace("\"", "")` leaves no quote and keeps every other character with its multiplicity |
| JavaStrings.RemoveCharAbsent | BusiestHour/BusiestHourMapper.java:77 | text without quotes is left untouched |
| JavaStrings.RemoveCharConcat | BusiestHour/BusiestHourMapper.java:77 | removing quotes distributes over concatenation |
| PopularStations.StationKey | PopularStations/PopularStationsMapper.java:30-40 | a station cell gives its trimmed text as a key exactly when that text is not empty, `NULL` or `NA` in any case, and nothing otherwise |
| PopularStations.MapLine | PopularStations/PopularStationsMapper.java:17-42 | a header at offset 0 is skipped; a line with at most 4 fields fails on index 4 and one with 5 or 6 fields fails on index 6; otherwise the line emits; at most 2 keys; every key is trimmed, not a placeholder, and is the trimmed column 4 or column 6 |
| PopularStations.EmissionOrder | PopularStations/PopularStationsMapper.java:33-41 | the start station comes first and the end station last; the same real station at both ends is emitted twice; two placeholders emit nothing |
| PopularStations.HeaderOnlyAtOffsetZero | PopularStations/PopularStationsMapper.java:24-26 | a line with the header text at a non-zero offset maps exactly like a data line |
| PopularStations.NoPlaceholderKeys | PopularStations/PopularStationsMapper.java:33-39 | no emitted key is empty, any of the four case spellings of `NA`, or any of the sixteen case spellings of `NULL` |
| PopularStations.MapColumns | PopularStations/PopularStationsMapper.java:28-41 | a data line given by its columns emits the keys of columns 4 and 6 and of no other column |
| Decimal.ValueOfRender | BusiestHour/BusiestHourMapper.java:83 | reading back a zero-padded rendering gives the number |
| Decimal.RenderValueOf | BusiestHour/BusiestHourMapper.java:28-29 | a run of digits, leading zeros included, is the rendering of its value at its own length |
| Decimal.RenderWidths | BusiestHour/BusiestHourMapper.java:83 | `%02d` of a number below 100 is exactly two digits; a four-letter year field below 10000 is four digits |
| Calendar.DayOfWeekNext | BusiestHour/BusiestHourMapper.java:80 | the weekday of the next calendar day is the next weekday |
| Calendar.DayOfWeekAnchors | BusiestHour/BusiestHourMapper.java:80 | 1970-01-01 was a Thursday and 2024-01-15 a Monday |
| Calendar.EpochDayNext | BusiestHour/BusiestHourMapper.java:80 | consecutive dates have consecutive epoch days, across month and year ends |
| Timestamp.To24Hour | BusiestHour/BusiestHourMapper.java:28-29 | the clock hour with its AM/PM marker gives an hour of day in 0..23 with the same value modulo 12, at 12 or later exactly when PM |
| Timestamp.ClockRoundTrip | BusiestHour/BusiestHourMapper.java:28-29 | the 12-hour and the 24-hour clock convert into each other without loss, both ways |
| Timestamp.ParseTimestamp | BusiestHour/BusiestHourMapper.java:28-29 | a parsed start time is a real date and time with a year of at most four digits |
| Timestamp.ParseFormat | BusiestHour/BusiestHourMapper.java:79 | parsing the pattern's printing of a date-time gives it back |
| Timestamp.ParsePrinting | BusiestHour/BusiestHourMapper.java:28-29 | month, day and clock hour may be printed with one or two digits; every such printing parses back to the same date-time |
| Timestamp.ParsedIsPrinting | BusiestHour/BusiestHourMapper.java:28-29 | every text the parser accepts is one of those printings of the date-time it reads as: no other separators, widths, markers or trailing text get through |
| Timestamp.ParseTimestampExactly | BusiestHour/BusiestHourMapper.java:28-29 | `s` parses to `t` exactly when `t` is a real date-time with a four-digit year and `s` is one of its printings |
| BusiestHour.DecodeBucketKeyRoundTrip | BusiestHour/BusiestHourMapper.java:83 | a key `<station>_<WEEKDAY>_<hh>` reads back into its station, weekday and hour, even for station names with underscores |
| BusiestHour.BucketKeyInjective | BusiestHour/BusiestHourMapper.java:83 | two keys are equal exactly when station, weekday and hour are |
| BusiestHour.MapLine | BusiestHour/BusiestHourMapper.java:59-91 | a header at offset 0 is skipped; a line with at most 4 fields fails on index 4; a start station outside the set is skipped whatever column 2 holds; at most one key; an emitted key decodes to the trimmed start station, which is in the set, and an hour below 24; for a data line from a top station, the line emits exactly when the cleaned column 2 parses, an unparsable start time is skipped with its cleaned text, and a parsed one gives a key that decodes to the station, the weekday of its date and its hour |
| BusiestHour.EmittedHourSegment | BusiestHour/BusiestHourMapper.java:81-83 | an emitted key ends in `_` and exactly two digits whose value is 00 to 23 |
| BusiestHour.HeaderOnlyAtOffsetZero | BusiestHour/BusiestHourMapper.java:66-68 | a line with the header text at a non-zero offset maps exactly like a data line |
| BusiestHour.EmptyTopStationsEmitNothing | BusiestHour/BusiestHourMapper.java:76 | with an empty top-station set no line emits a key |
| BusiestHour.FirstTopStationsPath | BusiestHour/BusiestHourMapper.java:36-38 | the chosen cache path is the first one ending in `top_stations.txt`; none is chosen when none ends so |
| BusiestHour.TrimmedLines | BusiestHour/BusiestHourMapper.java:42-44 | the set holds the trim of every line and nothing else |
| BusiestHour.LoadTopStations | BusiestHour/BusiestHourMapper.java:31-57 | setup fails with the missing-cache error exactly when the cache list is null or empty; on success the warning is logged exactly when the set is empty; the logged count is the set's size; every station comes from a trimmed line of a matching cached file |
| BusiestHour.Setup | BusiestHour/BusiestHourMapper.java:34-51 | the loop over the cache paths, which stops at the first match, computes `LoadTopStations` |
| BusiestHour.ReadTopStations | BusiestHour/BusiestHourMapper.java:41-45 | the line-reading loop collects exactly the trimmed lines |
| BusiestHour.LoadsFirstMatch | BusiestHour/BusiestHourMapper.java:36-46 | the first matching path decides the outcome: a missing file fails, and otherwise the set is exactly the file's trimmed lines |
| BusiestHour.LaterPathsIgnored | BusiestHour/BusiestHourMapper.java:46 | paths after the first match do not change what setup loads |
| BusiestHour.MissingOrEmptyFileLoadsNothing | BusiestHour/BusiestHourMapper.java:52-53 | with no matching path, or an empty file, setup succeeds with an empty set and the warning, and the mapper then emits nothing |
| Counting.Tally | BusiestHour/BusiestHourDriver.java:26-27 | the count of each key is the number of times it was emitted, and only emitted keys are counted |
| Counting.Merge | BusiestHour/BusiestHourDriver.java:26-27 | merging partial counts adds them key by key |
| Counting.TallyConcat | BusiestHour/BusiestHourDriver.java:26-27 | counting two parts of the key stream and merging gives the counts of the whole |
| Counting.MergeIdentity | BusiestHour/BusiestHourDriver.java:26-27 | an empty partial count, from a split whose lines all skip, changes nothing when merged |
| Counting.MergeCommutative | BusiestHour/BusiestHourDriver.java:26-27 | merge order does not matter |
| Counting.MergeAssociative | BusiestHour/BusiestHourDriver.java:26-27 | merge grouping does not matter |
| Counting.CombinerTransparent | BusiestHour/BusiestHourDriver.java:26-27 | counting each partition and then merging gives the same counts as counting everything at once |
| Pipeline.MapAll | PopularStations/PopularStationsMapper.java:17-19 | a map task fails exactly when some record's `map` call throws; on success every key was emitted by some record |
| Pipeline.MapAllConcat | PopularStations/PopularStationsMapper.java:17-19 | a map task over two runs of records emits the keys of the first run, then those of the second |
| Pipeline.SplitIndependentCounts | BusiestHour/BusiestHourDriver.java:25-27 | the final counts do not depend on how the records are split between map tasks |
| PopularityExamples.RoundTripCountsTwice | PopularStations/PopularStationsMapper.java:33-41 | a data line with `Clark St` in columns 4 and 6 emits `Clark St` twice |
| PopularityExamples.OneWayCountsBothEnds | PopularStations/PopularStationsMapper.java:30-41 | blanks around station cells do not reach the keys |
| PopularityExamples.PopularityExample | PopularStations/PopularStationsMapper.java:17-42 | a header, a round trip at Clark St and a trip from Clark St to State St count Clark St three times and State St once |
| HourExamples.ClockTimesParse | BusiestHour/BusiestHourMapper.java:28-29 | `1/15/2024 8:30:00 AM` is 08:30, `12:05:00 AM` is 00:05 and `12:05:00 PM` is 12:05 |
| HourExamples.IsoLayoutRejected | BusiestHour/BusiestHourMapper.java:79 | `2024-01-15 08:30:00.000` does not parse |
| HourExamples.QuotesDropped | BusiestHour/BusiestHourMapper.java:77 | a quoted start-time cell is cleaned to its text |
| HourExamples.MorningRide | BusiestHour/BusiestHourMapper.java:76-85 | a data line with start station `Clark St` and a quoted start time that reads as Monday 2024-01-15 8:30 AM (such as `1/15/2024 8:30:00 AM`) emits `Clark St_MONDAY_08` |
| HourExamples.MidnightRide | BusiestHour/BusiestHourMapper.java:81-83 | the same ride started at 12:05 AM emits `Clark St_MONDAY_00` |
| HourExamples.NoonRide | BusiestHour/BusiestHourMapper.java:81-83 | the same ride started at 12:05 PM emits `Clark St_MONDAY_12` |
| HourExamples.UnparsableRideSkipped | BusiestHour/BusiestHourMapper.java:87-89 | an unparsable start time is logged and skipped; the map task does not fail |

## Left out

- Hadoop plumbing: `Context`, the reused `Text` and `IntWritable` objects and
  `context.write`. Emissions are the returned key sequence, each key standing for one
  `(key, 1)` pair.
- Logging to standard output and standard error. The messages become tags: the
  `SkipReason.UnparsableTimestamp` outcome and the `SetupLog` value.
- File I/O in `setup`. A file's contents are given as a map from path to the lines
  `readLine` returns. A matching path absent from the map stands for the
  `FileNotFoundException` that aborts `setup`. Other I/O errors are not modelled.
- URI handling. The cache entries are given as their `getPath()` strings, so the
  `#top_stations.txt` fragment the driver adds plays no part.
- The driver's argument check, job configuration and exit codes
  (BusiestHour/BusiestHourDriver.java:13-35). There is no logic in them to state.
- The reducer. Its source is not part of this model. `Counting` assumes it sums the
  counts of a key.
- Timestamp.ParseTimestamp: models a restricted form of
  `DateTimeFormatter.ofPattern("M/d/yyyy h:mm:ss a")`. Month, day and clock hour take
  one or two digits, the year exactly four, and minutes and seconds exactly two. The
  markers are `AM` and `PM` in that case. The date must be real and the clock hour in
  1..12. The lenient behaviour of the default SMART resolver is not modelled:
  longer digit runs, years of other widths, clock hour 0, and a day of 29–31 past the
  end of its month, which Java clamps to the month's last day (`2/29/2023` reads as
  2023-02-28 and `2/30/2024` as 2024-02-29) where the model rejects the text.
- Timestamp.ParseTimestampExactly: "exactly" is relative to the restricted grammar
  above; the same holds for `Timestamp.ParsedIsPrinting`. Texts that only Java's
  lenient resolver accepts are outside both.
- JavaStrings.EqualsIgnoreCase: compares with ASCII case folding only. Java's
  `equalsIgnoreCase` also folds non-ASCII letters.
- JavaStrings.Trim: works on Unicode scalar values where Java's `trim()` works on
  UTF-16 code units. The result is the same, because every surrogate is above U+0020
  and only characters at or below U+0020 are removed.
- BusiestHour.BucketKey: prints the hour with the digits `0`–`9`. The mapper calls
  `String.format` without a `Locale` (BusiestHour/BusiestHourMapper.java:83), so a JVM
  whose default locale uses other digits (such as `fa-IR`) would print those instead.
- The mapper's per-task state (the `HashSet` field) is the `topStations` argument of
  `BusiestHour.MapLine`. Concurrency between tasks is not modelled.
