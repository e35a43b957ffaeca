# Air-quality data preparation, modelled in Dafny

This project models the data-shaping core of a small machine-learning
experiment. The experiment predicts the next day's air-quality category in Salt
Lake County from the weather. The pipeline has these stages:

- **Air-quality rows.** `process_epa_data` keeps the raw EPA rows of Utah / Salt
  Lake and keys them by date.
- **Weather stations.** `process_meso_data` reduces one MesoWest station file to
  one record per date, `[temperature, wind x, wind y, humidity, pressure]`:
  the average of the last run of consecutive readings with that date (an
  earlier run of the same date is overwritten, and the date keeps its
  first-seen position). Wind is averaged as the vector
  `(speed cos angle, speed sin angle)`.
- **Station merge.** The merge loop of `create_meso_dataset` averages the records
  of the stations that share a date.
- **Loading.** `load_dataset` reads a compact CSV back into a header and a date
  dictionary of strings.
- **Join.** `final.py` joins the two datasets on date, in air-quality order, and
  folds the categories "Hazardous" and "Very Unhealthy" into "Unhealthy".
- **Encoding.** `convert_class` numbers the categories 1, 2, ... in first-seen
  order and writes each number over its label, in place.
- **Shift.** `time_series` appends the next row's label to every row but the
  last.

Python's values are modelled as follows:

- A Python dict is an `OrderedDicts.Dict`: its keys in insertion order plus a
  `map`. Assigning to a key that is already present keeps the key's position.
- Exceptions are the `Wrappers.PyError` carried by a `Result`.
- A CSV file is the sequence of its rows.
- `float()` and the two trigonometric wind components are the fields of a
  `ScalarParser.Numerics` value passed in as a parameter. Numbers are `real`.

Each loop of the source is a Dafny method with invariants. It is proved equal
to a specification function, and the properties the code promises are proved as
lemmas about that function:

- `process_epa_data` is modelled by `EpaData.ProcessEpaData` and `EpaSpec`.
- `process_meso_data` is modelled by `MesoData.ProcessMesoData`, whose loop is
  `AccumulateRuns`, against `MesoSpec` and `DailyAverages`.
- The station merge is modelled by `MesoMerge.MergeDatasets` and `MergeSpec`.
- `load_dataset` is modelled by `Loader.LoadDataset` and `LoadSpec`.
- `convert_class` is modelled by `Labels.ConvertClass` and `ConvertSpec`.
- `time_series` is modelled by `Labels.TimeSeries` and `TimeSeriesSpec`.
- The `final.py` join is modelled by `Training.Join` and `JoinSpec`.

The rows of the joined dataset are objects of class `Labels.Row`, because
`convert_class` overwrites their last cell in place. It reaches them through the
shallow copy `list(dataset)`, so the caller's rows change too.

Four points of the code's behaviour are easy to misread:

- `time_series` *appends* the next row's label. The original label stays second
  to last, so it is not replaced (process_data.py:176).
- `load_dataset` fails only in three cases: with no header row
  (`StopIteration`), with an empty header (`pop` raises `IndexError`), and with
  an empty data row (`row[0]` raises `IndexError`). It does not fail when a data
  row is shorter than the header (process_data.py:161-165).
- Failures are the Python exceptions the code raises (`ValueError`,
  `StopIteration`, `IndexError`). There are no dedicated error kinds.
- A failure propagates out of the stage that raised it. Nothing catches it, and
  no file is skipped.

## Model

| member | source | states |
|---|---|---|
| ScalarParser.VerifyInput | process_data.py:25-29 | an empty field reads as 0.0; a non-empty field reads as float()'s value, and ValueError when float() rejects it |
| EpaData.ProcessEpaData | process_data.py:32-43 | the loop returns exactly EpaSpec: IndexError as soon as a row is too short for the county test or for row[4..7], else the dict built by the assignments of the kept rows in file order |
| EpaData.IsSaltLake | process_data.py:40 | the county test `row[0] == 'Utah' and row[1] == 'Salt Lake'` on a row long enough for it; EpaEntries states which dates it keeps |
| EpaData.RowFails | process_data.py:40-41 | a row raises IndexError iff it has no cells, or is a Utah row without a county (the `and` short-circuits), or is a kept row shorter than eight cells; ProcessEpaData raises exactly when some row fails |
| EpaData.Assignments | process_data.py:39-41 | the assignments `data[row[4]] = [row[5], row[6], row[7]]` of the kept rows in file order: at most one per row, each value of three fields |
| EpaData.EpaFails | process_data.py:39-41 | a row that raises makes process_epa_data raise IndexError, whatever the other rows hold |
| EpaData.EpaSpec | process_data.py:32-43 | process_epa_data fails only with IndexError; on success it returns a well-formed dict whose every value has three fields |
| EpaData.EpaEntries | process_data.py:39-41 | the dates are exactly those of the Utah / Salt Lake rows, in first-seen order; each holds [AQI, category, parameter] of the LAST kept row with that date |
| EpaData.KeptEntries | process_data.py:39-41 | the same membership and last-row-wins facts, by induction over the rows |
| OrderedDicts.FromPairsSpec | process_data.py:164-165 | assigning d[k] = v pair by pair leaves the keys in first-seen order and each key holding the value of the last pair that carries it |
| OrderedDicts.Dict.Set | process_data.py:41 | assignment replaces the value; a new key goes last, and an existing key keeps its position |
| OrderedDicts.Dict.Items | process_data.py:132 | `.items()`: one (key, value) pair per key, in insertion order |
| OrderedDicts.Empty | process_data.py:63 | `{}`: a well-formed dict with no keys |
| MesoData.ColumnIndex | process_data.py:73-77 | header.index(name) succeeds iff the name is in the header, giving its first position; otherwise ValueError |
| MesoData.LookupColumns | process_data.py:73-77 | succeeds iff all five required column names are present, each at the first position that holds its name; otherwise ValueError |
| MesoData.RowDate | process_data.py:92 | unpacking `date, time = row[1].split('T', 2)` succeeds iff the timestamp has exactly one 'T', giving the text before it; IndexError without row[1], else ValueError |
| MesoData.Field | process_data.py:83-88 | reading `verify_input(row[i])`: IndexError iff i is past the row's end; otherwise exactly what verify_input gives for row[i], its value or its ValueError |
| MesoData.ReadSample | process_data.py:105-111 | each of the five readings comes from its own column (temperature, humidity, speed, angle, pressure); temperature is read first, so its error wins; when all five fields read, the row reads |
| MesoData.DateText | process_data.py:82 | `row[1].split('T', 2)[0]` is the text before the first 'T', or the whole timestamp if it has none; it never holds a 'T' |
| MesoData.DataRowSample | process_data.py:92-111 | a later row is dated by its timestamp; the unpack comes before any reading: IndexError without row[1], ValueError unless the timestamp has exactly one 'T' |
| MesoData.Samples | process_data.py:69-111 | the readings of a station file; on success there is one per data row, the units row skipped (SamplesOfRows gives their dates) |
| TextSplit.Split | process_data.py:82 | `str.split(sep, maxsplit)` for a one-character separator; SplitCount, SplitJoin and SplitFirst state its meaning |
| TextSplit.SplitCount | process_data.py:92 | str.split(sep, maxsplit) yields min(occurrences, maxsplit) + 1 parts |
| TextSplit.SplitJoin | process_data.py:82 | joining the parts with the separator gives the string back |
| TextSplit.SplitFirst | process_data.py:82 | the first part is the text before the first separator and holds no separator |
| MesoData.FirstRowSample | process_data.py:81-88 | the first data row is read without unpacking its timestamp; its date is the text before its first 'T' |
| MesoData.DataRowSamples | process_data.py:91-111 | one sample per later data row, dated by that row's timestamp; the first failing row decides the error |
| MesoData.RunSumAppend | process_data.py:105-112 | one more reading adds its contribution to each of the five running sums |
| MesoData.ResetSums | process_data.py:97-112 | after the reset to zero, a new day's first reading leaves exactly its own contribution in the sums |
| MesoData.SumsGrouping | process_data.py:105-112 | the running sums do not depend on the order or grouping of the additions, and the zero sums add nothing |
| MesoData.RunSumSplit | process_data.py:105-112 | the sums over a run are the sums over any two consecutive pieces of it, added |
| MesoData.Record | process_data.py:96 | the stored record `[T/count, Wx/count, Wy/count, H/count, P/count]`: five fields in that order, each of which times the count gives its sum back |
| MesoData.Average | process_data.py:96 | a run's record has five fields, each the mean over the run of its sum: times the run's length it gives that sum |
| MesoData.RunRecords | process_data.py:96 | one store `processed_data[current_date] = ...` per run, in run order, keyed by the run's date and holding its average |
| MesoData.RecordDates | process_data.py:96 | the stores are keyed by the run dates, in run order |
| MesoData.Contribution | process_data.py:107-110 | a reading of speed 0 (a missing speed reads as 0.0) adds the zero vector to both wind sums |
| MesoData.Runs | process_data.py:91-102 | the readings cut into non-empty runs; there are no runs iff there are no readings, and never more runs than readings |
| MesoData.NextRuns | process_data.py:95-102 | one more reading extends the open run or opens one new run, and every run stays non-empty |
| MesoData.RunsPartition | process_data.py:91-112 | concatenating the runs gives the readings back; each run has a single date, and neighbouring runs have different dates (the runs are maximal) |
| MesoData.RunDatesDedup | process_data.py:95-102 | the run dates, deduplicated, are the reading dates, deduplicated |
| MesoData.DailyAverages | process_data.py:91-115 | the dict built by storing each run's average under its date, in run order, is well formed; DailyAveragesKeys and DailyAverageOfLastRun state its keys and values |
| MesoData.MesoSpec | process_data.py:62-117 | StopIteration without a header and units row or without a data row; ValueError when a required column is missing; a successful result is a well-formed dict |
| MesoData.ProcessMesoData | process_data.py:62-117 | the function returns exactly MesoSpec: the checks of the header and first row, then the aggregation loop |
| MesoData.AccumulateRuns | process_data.py:91-115 | the loop returns the error of the first bad data row, else the daily averages of all the readings, the open run flushed after the loop |
| MesoData.StartRun | process_data.py:95-102 | at a change of date the stored count is positive, the finished run's record is stored, and the sums and the count restart from zero |
| MesoData.CloseRun | process_data.py:115 | the count is positive, and storing the open run's record gives the daily averages of every reading so far |
| MesoData.DailyAveragesKeys | process_data.py:96 | there is one record per distinct reading date, in first-seen order, and nothing else |
| MesoData.DailyAverageOfLastRun | process_data.py:96 | a date's record has five fields and is the average of the LAST run with that date; a later run overwrites an earlier one |
| MesoData.SteadyTemperature | process_data.py:105 | a run of readings with one temperature averages to that temperature |
| MesoData.CalmRun | process_data.py:107-110 | a run of calm readings averages to a zero wind vector |
| MesoData.OppositeWindsCancel | process_data.py:109-110 | two equal-speed readings from opposite directions average to a zero wind vector |
| MesoData.SamplesOfRows | process_data.py:81-111 | a readable file yields one reading per data row, in file order, carrying that row's date and the five values read from that row's columns |
| MesoData.DataRowSamplesValues | process_data.py:91-111 | each later row's reading is exactly what reading that row alone gives |
| MesoData.AllRowsRead | process_data.py:91-111 | when every later row reads on its own, the loop over them reads as a whole |
| MesoData.FileReads | process_data.py:62-117 | a file with its header, units row and a first data row that read, and later rows that all read, is processed without error |
| MesoData.OneRow | process_data.py:79-117 | a file with a single data row that reads gives one record, keyed by that row's date |
| MesoData.LaterRowsError | process_data.py:91-111 | an error in a later row is the file's error once the header and the first data row have read |
| MesoData.MesoDates | process_data.py:62-117 | the dates of the result are exactly the dates of the data rows |
| MesoData.MesoBadTimestamp | process_data.py:91-92 | a later data row whose timestamp has no 'T' or more than one makes the file fail; when it is the first row to fail, the error is IndexError without row[1] and ValueError otherwise |
| MesoData.FirstRowAnyTimestamp | process_data.py:82-92 | a row whose timestamp has no 'T' or more than one is accepted as the first data row, dated by the text before its first 'T', and rejected with ValueError as a later row |
| MesoData.DataRowErrorPersists | process_data.py:91-92 | once a row fails, later rows do not change the error |
| MesoMerge.MergeDatasets | process_data.py:130-142 | the merge loops, with merge_count, and then the division return exactly MergeSpec |
| MesoMerge.MergeStation | process_data.py:132-138 | the inner loop over one station's items leaves processed_data and merge_count as if that station's pairs were visited after the earlier ones |
| MesoMerge.DivideByCounts | process_data.py:141-142 | each date's sum is divided by its own count; the dates and their order are kept |
| MesoMerge.MergeSpec | process_data.py:130-142 | the merged result is a well-formed dict: every date seen, in first-seen order, holding the mean of its records |
| MesoMerge.Stream | process_data.py:131-132 | the (date, record) pairs in visiting order, station by station; StreamValues states which records a date gets |
| MesoMerge.Accumulated | process_data.py:133-138 | processed_data after visiting a prefix of the pairs; AccumulatedKeys and AccumulatedValues state its keys and values |
| MesoMerge.Counts | process_data.py:133-137 | merge_count after visiting a prefix of the pairs; CountsValues and MergeCount state its contents |
| MesoMerge.Mean | process_data.py:134-142 | the element-wise sum divided by the number of records; never longer than any record, and as long as they are when they all have one length |
| Vectors.AddVec | process_data.py:134 | `list(map(add, a, b))`: the element-wise sum, truncated to the shorter list |
| Vectors.DivVec | process_data.py:142 | `[x / c for x in v]`: each element divided, the length kept |
| Vectors.SumVecs | process_data.py:134 | the left fold of AddVec over the records, never longer than any of them, and as long as they are when they all have one length |
| MesoMerge.AccumulatedKeys | process_data.py:131-138 | processed_data's dates after the loops are the visited dates in first-seen order |
| MesoMerge.AccumulatedValues | process_data.py:133-138 | a date's accumulated record is the element-wise sum of the records visited for it |
| MesoMerge.CountsValues | process_data.py:133-137 | merge_count holds exactly the visited dates, each with the number of records visited for it |
| MesoMerge.StreamValues | process_data.py:131-132 | the records visited for a date are those of the station files that have it, in file order |
| MesoMerge.MergeCount | process_data.py:130-137 | merge_count has exactly the dates of the station files, each with the number of files that have it |
| MesoMerge.MergedValues | process_data.py:130-142 | the merged dates are the union of the files' dates, and each maps to the mean of its records over the files that have it |
| MesoMerge.PassThrough | process_data.py:130-142 | a date that only one station file has passes through unchanged |
| MesoMerge.TwoStations | process_data.py:130-142 | a date two stations share gets (a + b) / 2, element-wise |
| MesoMerge.SingleStation | process_data.py:130-142 | merging a single station file gives it back unchanged, order included |
| Loader.LoadSpec | process_data.py:155-167 | a successful load gives a well-formed dict; a failure is StopIteration or IndexError, never ValueError |
| Loader.RowAssignments | process_data.py:164-165 | one assignment `data[row[0]] = row[1:]` per data row, in file order |
| Loader.LoadDataset | process_data.py:155-167 | the loop returns exactly LoadSpec: StopIteration without a header row, IndexError for an empty header or an empty data row, else the header without its first column and the row mapping |
| Loader.LoadedEntries | process_data.py:161-165 | the header loses its first column; the dates are the distinct first cells of the data rows in first-seen order, and each maps to the remaining cells, as strings, of the LAST row with that date |
| Labels.Numbered | process_data.py:189-192 | reading one more label numbers it if it is new and keeps every existing number |
| Labels.ClassesNumbering | process_data.py:183-194 | the classes are the distinct labels in first-seen order, numbered 1, 2, ... in that order |
| Labels.ClassesInjective | process_data.py:190-192 | the codes run from 1 to the number of classes, and distinct labels get distinct codes |
| Labels.ClassesStable | process_data.py:190-192 | a label keeps the code it got when first read |
| Labels.Relabel | process_data.py:194 | only the last cell of a row changes, and it becomes its label's code |
| Labels.Classes | process_data.py:183-192 | `classes` after reading the labels in order is a well-formed dict; ClassesNumbering, ClassesInjective and ClassesStable state its numbering |
| Labels.ConvertFrom | process_data.py:186-194 | convert_class's loop from row i on: the only error is IndexError, and there are as many rows as before; ConvertSpecClosed gives its result |
| Labels.ConvertSpec | process_data.py:181-196 | what convert_class returns and leaves in the rows: the only error is IndexError, the number of rows is kept; ConvertOutcome, ConvertClasses and ConvertRows state the rest |
| Labels.ConvertRow | process_data.py:187-194 | one loop step on row i numbers its label if it is new and writes the code over it in the row object; no other row changes, and the rest of the loop gives the same result |
| Labels.ConvertClass | process_data.py:181-196 | the loop leaves ConvertSpec's rows in the row objects (the caller's rows included), and returns ConvertSpec's classes with the same row objects, or IndexError on an empty row |
| Labels.ConvertSpecClosed | process_data.py:186-194 | the loop's result equals the closed form: rows up to the first empty one relabelled under the numbering of their labels |
| Labels.ConvertClasses | process_data.py:183-194 | the returned classes are the distinct labels before the first empty row, in first-seen order, each mapping to one more than its position |
| Labels.ConvertOutcome | process_data.py:186-196 | convert_class succeeds iff no row is empty, and then returns the numbering of all the labels; otherwise IndexError |
| Labels.ConvertRows | process_data.py:186-194 | row count and row lengths are kept; rows before the first empty one keep every cell but the last, which becomes its label's code; the rows from it on are untouched |
| Labels.ConvertComplete | process_data.py:181-196 | with no empty row, every row is relabelled under the numbering of all the labels |
| Labels.TimeSeriesSpec | process_data.py:171-178 | succeeds iff no row after the first is empty; max(0, n - 1) rows, row i being row i followed by row i + 1's last cell; IndexError otherwise |
| Labels.TimeSeries | process_data.py:171-178 | the index loop returns exactly TimeSeriesSpec |
| Training.Collapse | final.py:19-20 | Hazardous and Very Unhealthy become Unhealthy, every other category is kept, and neither of the two is ever returned |
| Training.JoinDates | final.py:14-15 | the air-quality dates, in order, that the weather dict has, never more than the air-quality dates; JoinedMembers, JoinedDistinct and JoinedOrder state its meaning |
| Training.JoinRow | final.py:16-22 | `meso_data + [category]`: one cell more than the weather record, the last never Hazardous or Very Unhealthy |
| Training.JoinRows | final.py:14-22 | one joined row per date; JoinContents states what each holds |
| Training.JoinSpec | final.py:12-22 | the join fails only with IndexError, when a joined date's air-quality row has no category; otherwise it has one row per joined date |
| Training.Join | final.py:12-22 | the loop fails exactly when JoinSpec does, and otherwise returns new, distinct row objects holding JoinSpec's rows |
| Training.AppendRow | final.py:22 | dataset.append of a new list: the new row is fresh, distinct from the others, and holds the given cells |
| Training.JoinShort | final.py:17 | a joined date whose air-quality row has no category column makes the join fail with IndexError |
| Training.JoinedMembers | final.py:14-15 | a date is joined iff both datasets have it |
| Training.JoinedDistinct | final.py:14-15 | no date is joined twice |
| Training.JoinedOrder | final.py:14 | the joined dates keep the order of the air-quality dates |
| Training.JoinLength | final.py:14-15 | the join has at most min(air-quality dates, weather dates) rows |
| Training.JoinContents | final.py:16-22 | row i is the weather record of the i-th joined date followed by its collapsed category, never Hazardous or Very Unhealthy |
| Training.ClassSeriesRows | final.py:24-25 | on labelled rows convert_class then time_series succeed with the numbering of all the labels; n - 1 rows (0 when there are none), row i being its own cells without the label, then its own code, then row i + 1's code |
| Training.ClassSeries | final.py:24-25 | convert_class then time_series: the only error is IndexError, and a success has one row fewer than its input (none for no input) |
| Training.PrepareSpec | final.py:8-25 | the whole preparation; it fails only with StopIteration or IndexError, never with ValueError |
| Training.Prepare | final.py:8-25 | loading both files, joining, convert_class and time_series return exactly PrepareSpec, each failure passed on |
| Training.PrepareJoined | final.py:8-25 | once both files load and the join succeeds, the result is convert_class then time_series on the joined rows |
| Training.PrepareOutcome | final.py:24-25 | once both files load and the join succeeds, the preparation succeeds with one row fewer than the join (none for an empty join) |

## Left out

- File and directory access is not modelled: `open`, `csv.reader`, `csv.writer`
  and `listdir`. A file is the sequence of its rows, already split into fields.
- `create_epa_dataset` (process_data.py:46-55) is left out. It only writes files.
- Three parts of `create_meso_dataset` are left out: collecting the station
  files (process_data.py:122-127), the header row and the CSV writing
  (process_data.py:145-152). `MesoMerge.MergeDatasets` starts from the list of
  per-station dicts.
- `float()` string parsing and `math.cos` / `math.sin` / `math.radians` are
  abstract. They are the functions in `ScalarParser.Numerics`, given as a
  parameter.
- Floating-point rounding is not modelled: sums and divisions are exact `real`
  operations. The model cannot show rounding effects. It can show which values
  are summed and what they are divided by.
- The `time` half of the timestamp (process_data.py:92) is discarded, as in the
  source.
- The unused `dateutil` and `timedelta` imports are left out.
- The numpy conversion, feature scaling, the 7000-row split, the SVC fit and
  score, and the prints (final.py:27-39) are left out. They are foreign
  libraries and floating-point numerics.
- The header that `load_dataset` returns is modelled. `final.py` discards it,
  and so does `Training.Prepare`.
- `merge_count` is a plain `map`, because its iteration order is never observed.
- Labels.ConvertClass: requires the rows to be distinct list objects
  (`DistinctRows`). `final.py` builds every row as a new list
  (`meso_data + [category]`). The model does not cover a dataset that lists one
  list object twice, which the source would relabel twice.
- Training.Join: requires `epa.Valid()`. That is the invariant of a Python dict:
  distinct keys in step with the mapping. It holds of every dict that
  `Loader.LoadSpec` returns, so it demands nothing of a real caller.
- MesoMerge.MergeDatasets: requires every station dict to be `Valid()`, for the
  same reason. `MesoData.MesoSpec` returns only well-formed dicts.
- Vectors.AddVec: `list(map(add, a, b))` stops at the shorter list. The model
  does the same. The merge lemmas that name element-wise means inherit that
  truncation when records differ in length. Every record the source produces has
  five fields.
- MesoMerge.MergeSpec: station order is not proved irrelevant to the merged
  values. The merge is stated for the files in the order given, which also
  fixes the order of the merged dates.
