# Air-quality data preparation engine, modelled in Dafny

This project models the engine of the air-quality regressor's preprocessing program
(`src/main.rs`). The engine turns three minute-stamped sources into labelled, fixed-length
windows and splits them into cross-validation folds. The three sources are:

- indoor sensor readings from eight sites;
- lesson-block occupancy from the school schedule;
- outdoor weather samples.

The model follows the program stage by stage, one module per stage:

| module | stage |
|---|---|
| `Time` | Minute timestamps, the date and minute of a timestamp, and the proleptic Gregorian calendar behind `date.month()` and `date.day()`. |
| `Entities` | Sites, quantities, sensor snapshots, occupancy facts, weather vectors and merged records. |
| `Codes` | The static code tables and the decoding of one sensor row: room codes, `aj-0x` sensor ids and reading field names. |
| `Occupancy` | The lesson-block table (`get_slot_time`), a schedule row expanded into one fact per minute, and the per-minute occupancy table. |
| `Sensors` | Per-minute snapshot accumulation (`parse_sensor_data`) and the shape of `scale_sensor_data`. |
| `Weather` | Linear interpolation, the weather gap fill (`parse_weather_data`) and the shape of `scale_weather_data`. |
| `Join` | `merge_maps_updated`, and the removal of the three non-classroom sites in `main`. |
| `Continuity` | Sorting by time, grouping by day, the gap scan between 04:00 and 16:00, and the day filter. |
| `Windows` | Stride-1 sliding windows (`generate_windows`) and the per-site pipeline (`structure_data`). |
| `Output` | Flattening into output rows with a running window id (`restructure_data_to_output`). |
| `Folds` | The fold split (`shuffle_and_split_into_folds`) and the train and test sets of each fold (`export_data`). |

The model's representations:

- **Timestamps.** A timestamp is an `int` count of minutes since 1970-01-01 00:00. A date is a count of days.
- **Numbers.** f32 values are `real`.
- **Input cells.** Cells that the program parses from text are `Field` values: missing, malformed, or a typed value.
- **Procedures.** The program's imperative procedures are methods with loops. Each method is proved equal to a specification function or characterised pointwise by its `ensures`, and the lemmas beside it state what that function guarantees.
- **Parallel loops.** `par_iter` over rows and loops over DashMap/HashMap keys become one of two things:
  - sequential folds over the rows;
  - `:|` loops over the key set, where the result does not depend on the visiting order.
- **Visiting order.** Where the result does depend on the order (the merged lists, the output rows), the visiting order is an explicit parameter.

Where the program's behaviour differs from what its names and constants suggest, the model follows the program:

- **Operating hours.** The join keeps hours 4 to 15. The literals at `src/main.rs:461` apply, not the `START_HOUR` of 3, which only the uncalled `merge_maps` reads.
- **Window count.** A day of N records gives N - 180 windows. For N < 180, `tuples.len() - window_size` underflows. `Windows.GenerateWindows` therefore requires every day to have at least 180 records. `Continuity.RetainedDayLength` shows that every day that survives the gap filter has at least 359 records, so the requirement always holds inside the pipeline.
- **Fold membership.** It is fixed by the seeded permutation only for a fixed order of the groups. The groups come out of `restructure_data_to_output` in the iteration order of two std `HashMap`s, which the program does not fix. The model takes that order as a parameter.

## Model

| member | source | states |
|---|---|---|
| Time.MinuteOfDay | src/main.rs:734 | The minute of the day of a timestamp lies in 0..1439. |
| Time.Hour | src/main.rs:461 | The hour of a timestamp lies in 0..23. |
| Time.AtParts | src/main.rs:197-206 | The timestamp of minute m of a date has that date and minute m as its parts. |
| Time.PartsAt | src/main.rs:598 | Every timestamp is its date plus its minute of the day. |
| Time.SameDayOrder | src/main.rs:617-625 | On one date, timestamps are ordered as their minutes of the day, and their difference equals the difference of those minutes. |
| Time.HourWindow | src/main.rs:461 | Hour in [lo, hi) holds exactly when the minute of the day is in [60·lo, 60·hi). |
| Time.DaysInMonth | src/main.rs:733 | Every month has 28 to 31 days. |
| Time.YearOrdinal | src/main.rs:721-733 | Splitting a day count yields a day of the year within that year's length. |
| Time.MonthOf | src/main.rs:721-732 | Day o of a year falls in month m (1..12), and o lies inside that month's day range. |
| Time.Civil | src/main.rs:721-733 | The civil date of any day count is a valid date: month in 1..12, day within the month. |
| Time.CivilOfDays | src/main.rs:721-733 | Every valid civil date is the civil date of its own day count. |
| Time.DaysOfCivil | src/main.rs:721-733 | Every day count is the day count of its civil date, so `Civil` is a bijection onto valid dates. |
| Codes.ParseLocationSensor | src/main.rs:163-175 | A missing room is a missing-room error. A decoded site has exactly the given room code. Any other code is an unknown-room error, and no site has that code. |
| Codes.RoomCodeDecodes | src/main.rs:163-175 | Each site's room code decodes back to that site. |
| Codes.RoomlessAreExcluded | src/main.rs:1007-1009 | The sites without a room code are exactly the three sites removed after the join. |
| Codes.SensorLocation | src/main.rs:234-247 | A decoded id is the id of the site it yields. An id outside the table is the id of no site. |
| Codes.SensorIdDecodes | src/main.rs:234-247 | Each site's `aj-0x` id decodes back to that site. |
| Codes.MapSensorValue | src/main.rs:272-284 | A known field name yields the quantity with that name and carries the value. An unknown name is the name of no quantity. |
| Codes.FieldNameDecodes | src/main.rs:272-284 | Each quantity's field name maps back to that quantity, with the value unchanged. |
| Codes.DecodeSensorRow | src/main.rs:214-270 | A row decodes exactly when its time, field, id and value are present and parse, and the id and field are known. A decoded row carries that time, site, quantity and value. Time errors come first. |
| Codes.SensorRowRoundTrip | src/main.rs:214-270 | A row written from a typed reading decodes back to that reading. |
| Occupancy.Slot | src/main.rs:197-210 | Exactly the blocks 0..8 have a start time and a length. |
| Occupancy.SlotsTile | src/main.rs:197-205 | Each block ends where the next one starts; the blocks cover 07:30 to 14:55. |
| Occupancy.SlotTime | src/main.rs:189-211 | Success exactly when the date and block are present and the block is 0..8. Success yields the block's start on that date and its length. A missing block or date, and an unknown block, give their own errors. |
| Occupancy.SlotMinutesInSchoolDay | src/main.rs:197-205 | Every minute of every block lies on the block's date, between 07:30 and 14:55, inside the join's hours. |
| Occupancy.ParseLocationTimes | src/main.rs:177-187 | It fails exactly when the slot lookup fails, with the same error. Otherwise it yields `length` minutes start, start+1, …, start+length-1. |
| Occupancy.SensedPeopleFrom | src/main.rs:125-160 | Success exactly when the times, room and count all decode. A time error is reported first. Success yields one fact per minute of the block, each with the row's site and count. |
| Occupancy.RowFactsInOneDay | src/main.rs:146-159 | The facts of one row have increasing minutes, all on the row's date and inside hours 4 to 15. |
| Occupancy.ParseLocationData | src/main.rs:402-438 | The table equals the facts of every decodable row appended, row by row, to their minutes' lists. |
| Occupancy.AddFactsMembers | src/main.rs:430-434 | After appending facts, a site's count is listed in a minute exactly when it was there before or is among the new facts. |
| Occupancy.OccupanciesFacts | src/main.rs:402-438 | A count is listed for a minute exactly when some decodable schedule row yields that fact. |
| Sensors.EmptySensor | src/main.rs:315-326 | A new snapshot has the reading's site and every field unset. |
| Sensors.SetField | src/main.rs:330-339 | Storing a reading sets exactly the field of its quantity to the value. The site and the seven other fields are unchanged. |
| Sensors.Snapshot | src/main.rs:313 | The search finds a snapshot exactly when the list has one for the site. What it finds is the first snapshot of that site in the list, as `find` returns. |
| Sensors.AddReadingEffect | src/main.rs:312-340 | One reading sets its field in its site's snapshot, a fresh one when there was none. Every other site's snapshot is unchanged, one snapshot per site is preserved, and the list grows only when a snapshot is created. |
| Sensors.AddReadingSplit | src/main.rs:313-328 | Updating the first snapshot of the site in place, or appending a new one when there is none, is the list after the reading. |
| Sensors.Accumulate | src/main.rs:312-340 | The find-or-push loop computes the list after the reading. |
| Sensors.ParseSensorData | src/main.rs:288-345 | The table equals all decodable rows applied in order, with undecodable or unreadable rows skipped. |
| Sensors.ReadingsUnique | src/main.rs:312-328 | Every minute's list holds at most one snapshot per site. |
| Sensors.ReadingsObserved | src/main.rs:288-345 | A site has a snapshot in a minute exactly when some decodable row is for that minute and site. |
| Sensors.ReadingsFields | src/main.rs:330-339 | Each field of a snapshot is the value of the last reading of that quantity for that minute and site, and unset when there is none. |
| Sensors.MapOption | src/main.rs:914 | Mapping keeps an unset field unset and a set field set. |
| Sensors.ScaleSensor | src/main.rs:912-921 | Scaling keeps the site and which fields are set. Relative humidity passes through unchanged. Each other field gets its own column's scaler. |
| Sensors.ScaleSensors | src/main.rs:911-923 | A minute's list keeps its length, and each snapshot is scaled on its own. |
| Sensors.ScaleSensorData | src/main.rs:880-929 | Scaling keeps exactly the same minutes and scales each minute's list. |
| Sensors.ScalingKeepsSites | src/main.rs:911-923 | Scaling keeps one snapshot per site. |
| Weather.Lerp | src/main.rs:387-400 | Fraction 0 gives the first value and fraction 1 the second. |
| Weather.LerpWithin | src/main.rs:387-400 | For a fraction in [0, 1], the result lies between the two values. |
| Weather.Interpolate | src/main.rs:387-400 | Fraction 0 gives the first point and fraction 1 the second. For a fraction in [0, 1], every field lies between the two points' fields. |
| Weather.Samples | src/main.rs:352-367 | Samples exist exactly when every row after the skipped first one decodes, and they are then exactly those rows in order. |
| Weather.ParseWeatherData | src/main.rs:347-385 | The loop yields the filled table when every row it reads decodes, and an error otherwise. |
| Weather.BetweenAt | src/main.rs:372-376 | The point at minute i after the earlier sample is the interpolation at fraction i / (t2 - t1). |
| Weather.BridgeGap | src/main.rs:368-378 | The inner loop adds exactly the minutes strictly between the two samples, each with its interpolated point. Every other minute is unchanged. |
| Weather.FillCovers | src/main.rs:347-385 | For samples in increasing time order, the table holds exactly the minutes from the first sample to the last. |
| Weather.FillKeepsSamples | src/main.rs:380 | For samples in increasing time order, each sample's own minute holds that sample's readings. |
| Weather.FillInterpolates | src/main.rs:368-378 | For samples in increasing time order, a minute strictly between two consecutive samples holds their interpolation at that minute's fraction. |
| Weather.BetweenWithin | src/main.rs:372-376 | Every synthetic point lies, field by field, between its two samples. |
| Weather.ScaleWeatherData | src/main.rs:931-991 | Scaling keeps exactly the same minutes and applies each column's scaler. |
| Join.FirstMatch | src/main.rs:472-475 | It finds nothing exactly when no fact is for the site. Otherwise it finds the earliest fact for the site. |
| Join.PeopleAt | src/main.rs:466-483 | A record's occupancy is the site's first fact of the minute, or a count of 0 for the site when there is none. |
| Join.MergeMapsUpdated | src/main.rs:446-498 | The loops compute the merged table for the given minute order. |
| Join.MergeColumn | src/main.rs:485-494 | The list under a site is the concatenation, minute by minute, of that site's records. The site is a key exactly when that list is non-empty. |
| Join.ColumnSound | src/main.rs:453-495 | Every record under site l comes from a minute with weather and hour in 4..15. Its snapshot is a snapshot of l from that minute, and it carries l's occupancy and the minute's weather. |
| Join.ColumnComplete | src/main.rs:466-493 | Every snapshot of every kept minute is filed, as its record, under its own site. |
| Join.FiledAtMostOne | src/main.rs:466-493 | With one snapshot per site, a minute files at most one record under a site. |
| Join.ColumnTimesDistinct | src/main.rs:446-498 | With one snapshot per site in each minute, a site's list holds each minute at most once. |
| Join.RemoveExcluded | src/main.rs:1007-1009 | The dining room, corridor and staff room are removed, and every other site's list is unchanged. |
| Continuity.InsertSorted | src/main.rs:587 | Inserting into a sorted list keeps it sorted and adds exactly the record. |
| Continuity.SortByTime | src/main.rs:581-590 | The result is in time order and is a permutation of the input. |
| Continuity.SortedUnique | src/main.rs:587 | When no two records share a minute, only one time-ordered permutation exists, so the unstable sort's result is determined. |
| Continuity.AggregateByDate | src/main.rs:592-603 | There is one entry for each date with records, holding exactly that date's records in input order. |
| Continuity.GroupSnoc | src/main.rs:597-600 | Appending a record to its date's entry keeps the grouping exact. |
| Continuity.OnDaySorted | src/main.rs:592-603 | A date's group of a sorted list is sorted, and holds only records of that date taken from the list. |
| Continuity.OnDayDistinct | src/main.rs:592-603 | Distinct minutes stay distinct within a date's group. |
| Continuity.GapsOfDay | src/main.rs:615-636 | The scan from 04:00 records (last, t) exactly when t is past last + 1 minute (wrapping at midnight). It adds a trailing (last, 16:00) when the last minute is before 16:00. |
| Continuity.FindGaps | src/main.rs:605-640 | The gap table has exactly the dates with at least one gap, each with its gap list. |
| Continuity.FilterDaysByGaps | src/main.rs:642-657 | A date is kept exactly when none of its gaps is longer than 2 minutes. Kept dates keep their records unchanged, and no date is added. |
| Continuity.NoBigGapIff | src/main.rs:615-636 | No recorded gap is longer than 2 minutes exactly when every step from `last` through the minutes to 16:00 is at most 2 minutes. |
| Continuity.RetainedIff | src/main.rs:642-657 | A day is kept exactly when every step from 04:00 through its minutes to 16:00 is at most 2 minutes. |
| Continuity.RetainedDayLength | src/main.rs:642-657 | A kept day has at least 359 records. |
| Windows.SlidingWindowsAt | src/main.rs:665-670 | A day of N ≥ w records yields exactly N - w windows, and window i is records i .. i + w - 1. |
| Windows.WindowsOfDay | src/main.rs:666-669 | The inner loop builds exactly those windows. |
| Windows.GenerateWindows | src/main.rs:659-674 | There is one entry per date of the input, holding that date's sliding windows. |
| Windows.RetainedLongEnough | src/main.rs:667 | Every day that survives the filter has at least 180 records, so the window count never underflows. |
| Windows.StructureSite | src/main.rs:686-700 | One site's records are sorted, grouped by date and filtered, then cut into windows. |
| Windows.StructureData | src/main.rs:676-703 | There is one entry per site of the merged table, holding that site's windows by date. |
| Windows.StructureDay | src/main.rs:676-703 | Each output date is a kept date of the site's sorted records, cut into windows of 180. |
| Windows.WindowOfDay | src/main.rs:665-669 | A window of a time-ordered day holds 180 records of that day in time order. |
| Windows.StructureWindows | src/main.rs:676-703 | Every window produced for date d holds exactly 180 records of date d, taken from the site's records, in time order. |
| Output.OrZero | src/main.rs:735-742 | An unset field becomes 0, and a set field keeps its value. |
| Output.Row | src/main.rs:718-754 | A row carries the window id. Exactly the month column of the date's month is 1. It also carries the day of the month, the minute of the day (0..1439), the sensor fields with unset ones as 0, the weather and the head count. |
| Output.MonthOneHot | src/main.rs:721-732 | Month column k is 1 exactly when the date's month is k + 1. |
| Output.WindowRows | src/main.rs:716-756 | A window becomes one row per record, in order, all carrying the same id. |
| Output.DateRows | src/main.rs:712-761 | A day's rows are its windows' rows in order, with ids first, first+1, …. The next free id is first plus the number of windows. |
| Output.SiteRows | src/main.rs:711-763 | A site's dates are appended after the earlier groups, with ids continuing from the earlier windows. |
| Output.RestructureDataToOutput | src/main.rs:705-766 | The loops produce one row list per (site, date) group in visiting order, with window ids starting at 1. |
| Output.GroupRowsLength | src/main.rs:712-761 | A group of windows of w records holds (number of windows) · w rows. |
| Output.GroupRowsAt | src/main.rs:712-761 | Record k of window j becomes row j·w + k, with id first + j. |
| Output.OutputCount | src/main.rs:761 | There is one row list per group, including groups without windows. |
| Output.OutputGroup | src/main.rs:705-766 | Group g's rows are its windows' rows, with ids continuing after the windows of the earlier groups. |
| Output.OutputAt | src/main.rs:705-766 | Record k of window j of group g is row j·w + k of that group, with id 1 + (windows of earlier groups) + j. Ids start at 1, grow by one per window, and are shared within a window. |
| Folds.Shuffle | src/main.rs:771-772 | Shuffling keeps the number of groups. |
| Folds.ShuffleMoves | src/main.rs:771-772 | Every group lands at exactly one position of the shuffled list. |
| Folds.Start | src/main.rs:782 | A slice starts inside the list. |
| Folds.End | src/main.rs:783-787 | A slice ends no earlier than it starts and no later than the list's end. |
| Folds.Split | src/main.rs:769-794 | The split has exactly `folds` slices. |
| Folds.SliceAt | src/main.rs:781-790 | Slice k runs from k·(n / folds) to the next slice's start, and the last slice runs to the end. |
| Folds.SliceIndices | src/main.rs:782-787 | The start and end indices the loop computes are those of slice i. |
| Folds.ShuffleAndSplitIntoFolds | src/main.rs:769-794 | The method returns the contiguous slices of the shuffled list. |
| Folds.SplitSizes | src/main.rs:775-787 | Each slice but the last holds n / folds groups. The last holds n - (folds - 1)·(n / folds). |
| Folds.SplitPartition | src/main.rs:781-791 | Every position of the shuffled list lies in exactly one slice. |
| Folds.SplitConcat | src/main.rs:781-791 | The slices, joined in order, give back the shuffled list. |
| Folds.TrainTest | src/main.rs:825-859 | For fold k, the test set is slice k and the train set is every other slice, joined in index order. |
| Folds.Rows | src/main.rs:847 | The exported rows are the groups' rows joined in order. |
| Folds.TrainIsComplement | src/main.rs:825-859 | For fold k, the train groups are the shuffled list with slice k cut out, and the test groups are slice k. With `SplitPartition`, every group is tested in exactly one fold and trained on in all the others. |

## Left out

- CSV reading, row splitting into cells, and file output are not modelled: `read_csv`, `get_readers`, `export_fold`, the per-fold directory and file creation, and the panics on unreadable files. Rows arrive as already-split, typed cells, and a set of groups is exported as its rows.
- `get_data` is not modelled. It merges the second sensor file and the second weather file into the first by overwriting inserts.
- chrono's text parsing of timestamps and dates is not modelled. A cell holds either a parsed minute timestamp or day number, or is missing or malformed. Seconds are not modelled: sensor timestamps are assumed to fall on whole minutes. A reading with nonzero seconds would find no weather minute in the join, and the model does not capture that case.
- Concurrency is not modelled. `par_iter` over rows and the DashMaps become sequential folds over the rows, so row order decides two choices that the program leaves to thread scheduling:
  - `Join.PeopleAt` (through `Join.FirstMatch`) takes the first occupancy fact of a site at a minute in row order. In the program the per-minute occupancy lists are filled in parallel and never sorted, so when two schedule rows give the same room a count at the same minute, the count the join uses depends on scheduling.
  - `Sensors.ReadingsFields` states that a snapshot field holds the last reading of its quantity in row order. In the program, two readings of the same minute, site and quantity race, and the last writer under scheduling wins.
- Map iteration order is a parameter of `Join.MergeMapsUpdated` and `Output.RestructureDataToOutput`, which prove their result for any visiting order. The fold membership the program writes out depends on those orders.
- `Weather.FillCovers`, `Weather.FillKeepsSamples` and `Weather.FillInterpolates` assume a weather file in increasing time order. `parse_weather_data` does not check the order. With an out-of-order file, `Weather.Fill` models what the program does: a later bridge writes interpolated points over earlier real samples. The lemmas say nothing about that case.
- `Folds.ShuffleAndSplitIntoFolds` requires at least one fold. Zero folds panic on the division in the program. A negative `folds` gives an empty list of folds, and the model does not cover that case. The only caller passes FOLDS = 10.
- The `StdRng` shuffle with the fixed seed is not modelled. The shuffle is a given permutation of positions.
- Floating-point numerics are not modelled. f32 values are exact reals, so `Weather.Interpolate` is exact linear interpolation without rounding. The robust and standard scalers (median, interquartile range, mean, deviation) are given functions of one value, so `Sensors.ScaleSensorData` and `Weather.ScaleWeatherData` state the shape of the scaling and not its numbers.
- Integer widths are not modelled. The `i32` window id and the `usize` lengths are unbounded integers, so the model does not capture a window id overflowing `i32` after 2^31 - 1 windows.
- `Windows.GenerateWindows` requires every day to hold at least 180 records, where the program would underflow `len - window_size`. The pipeline always meets this requirement (`Windows.RetainedLongEnough`).
- The `None` branch of `get_sorted_data_for_location` in `structure_data` is not modelled. It cannot happen, because every site visited is a key of the merged table.
- `merge_maps`, an older draft of the join that `main` never calls, is not modelled. Neither is the unused `target_fold` value in `export_data`.
- Logging with `println!` and timing with `Instant` are not modelled.
- The Python training, evaluation and plotting scripts under `scripts/` are not part of the engine and are not modelled.
