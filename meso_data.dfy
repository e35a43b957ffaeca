/**
 * process_meso_data: reduce one MesoWest station file to one record per
 * date, [temperature, wind x, wind y, humidity, pressure]: the mean over the
 * LAST run of consecutive readings with that date (an earlier run of the same
 * date is overwritten, and the date keeps its first-seen position). Wind is
 * averaged as a vector (speed * cos(angle), speed * sin(angle)), not as an
 * angle.
 */
module MesoData {
  import opened Wrappers
  import opened OrderedDicts
  import opened ScalarParser
  import TextSplit

  const TempColumn := "air_temp_set_1"
  const HumidityColumn := "relative_humidity_set_1"
  const SpeedColumn := "wind_speed_set_1"
  const AngleColumn := "wind_direction_set_1"
  const PressureColumn := "pressure_set_1d"
  const RequiredColumns := [TempColumn, HumidityColumn, SpeedColumn, AngleColumn, PressureColumn]

  /** Positions of the five required columns in the header row. */
  datatype Columns = Columns(temp: nat, humidity: nat, speed: nat, angle: nat, pressure: nat)

  /** One data row, read: its date and its five readings (angle in degrees). */
  datatype Sample = Sample(date: string, temp: real, humidity: real, speed: real, angle: real, pressure: real)

  // ---------------------------------------------------------------- reading rows

  /** header.index(name) */
  function ColumnIndex(header: seq<string>, name: string): (r: Result<nat>)
    ensures r.Ok? <==> name in header
    ensures r.Ok? ==> r.value < |header| && header[r.value] == name && name !in header[..r.value]
    ensures r.Err? ==> r.error == ValueError
  {
    if name in header then Ok(FirstIndex(header, name)) else Err(ValueError)
  }

  /** Each position of cols holds its column's name. */
  predicate ColumnsOf(header: seq<string>, cols: Columns) {
    && cols.temp < |header| && header[cols.temp] == TempColumn
    && cols.humidity < |header| && header[cols.humidity] == HumidityColumn
    && cols.speed < |header| && header[cols.speed] == SpeedColumn
    && cols.angle < |header| && header[cols.angle] == AngleColumn
    && cols.pressure < |header| && header[cols.pressure] == PressureColumn
  }

  function LookupColumns(header: seq<string>): (r: Result<Columns>)
    ensures r.Ok? <==> forall name :: name in RequiredColumns ==> name in header
    ensures r.Err? ==> r.error == ValueError
    ensures r.Ok? ==> ColumnsOf(header, r.value)
    // header.index gives the first position of each name.
    ensures r.Ok? ==>
      && TempColumn !in header[..r.value.temp]
      && HumidityColumn !in header[..r.value.humidity]
      && SpeedColumn !in header[..r.value.speed]
      && AngleColumn !in header[..r.value.angle]
      && PressureColumn !in header[..r.value.pressure]
  {
    var t :- ColumnIndex(header, TempColumn);
    var h :- ColumnIndex(header, HumidityColumn);
    var s :- ColumnIndex(header, SpeedColumn);
    var a :- ColumnIndex(header, AngleColumn);
    var p :- ColumnIndex(header, PressureColumn);
    Ok(Columns(t, h, s, a, p))
  }

  /** verify_input(row[i]): IndexError past the end of the row, else what verify_input gives. */
  function Field(num: Numerics, row: seq<string>, i: nat): (r: Result<real>)
    ensures i >= |row| ==> r == Err(IndexError)
    ensures i < |row| ==> r == VerifyInput(num, row[i])
  {
    if i < |row| then VerifyInput(num, row[i]) else Err(IndexError)
  }

  /** The five readings of a row, read in the order the source reads them. */
  function ReadSample(num: Numerics, row: seq<string>, cols: Columns, date: string): (r: Result<Sample>)
    ensures r.Ok? ==> r.value.date == date
    ensures r.Ok? ==> Field(num, row, cols.temp) == Ok(r.value.temp)
    ensures r.Ok? ==> Field(num, row, cols.humidity) == Ok(r.value.humidity)
    ensures r.Ok? ==> Field(num, row, cols.speed) == Ok(r.value.speed)
    ensures r.Ok? ==> Field(num, row, cols.angle) == Ok(r.value.angle)
    ensures r.Ok? ==> Field(num, row, cols.pressure) == Ok(r.value.pressure)
    // The fields are read temperature first: its error wins over the others'.
    ensures Field(num, row, cols.temp).Err? ==> r == Err(Field(num, row, cols.temp).error)
    // A row whose five fields all read gives a reading.
    ensures (&& Field(num, row, cols.temp).Ok? && Field(num, row, cols.humidity).Ok?
             && Field(num, row, cols.speed).Ok? && Field(num, row, cols.angle).Ok?
             && Field(num, row, cols.pressure).Ok?) ==> r.Ok?
  {
    var t :- Field(num, row, cols.temp);
    var h :- Field(num, row, cols.humidity);
    var s :- Field(num, row, cols.speed);
    var a :- Field(num, row, cols.angle);
    var p :- Field(num, row, cols.pressure);
    Ok(Sample(date, t, h, s, a, p))
  }

  /** row[1].split('T', 2)[0]: the date part of a row's timestamp. */
  function DateText(row: seq<string>): (date: string)
    requires |row| >= 2
    ensures 'T' !in date
    ensures 'T' in row[1] ==> date == row[1][..FirstIndex(row[1], 'T')]
    ensures 'T' !in row[1] ==> date == row[1]
  {
    TextSplit.SplitFirst(row[1], 'T', 2);
    TextSplit.Split(row[1], 'T', 2)[0]
  }

  /** `date, time = row[1].split('T', 2)`, which needs exactly one 'T'. */
  function RowDate(row: seq<string>): (r: Result<string>)
    ensures r.Ok? <==> |row| >= 2 && TextSplit.Occurrences(row[1], 'T') == 1
    ensures r.Ok? ==> r.value == DateText(row)
    ensures |row| < 2 ==> r == Err(IndexError)
    ensures |row| >= 2 && r.Err? ==> r.error == ValueError
  {
    if |row| < 2 then Err(IndexError)
    else
      var parts := TextSplit.Split(row[1], 'T', 2);
      TextSplit.SplitCount(row[1], 'T', 2);
      if |parts| != 2 then Err(ValueError) else Ok(parts[0])
  }

  /** The first data row is read without unpacking its timestamp. */
  function FirstRowSample(num: Numerics, row: seq<string>, cols: Columns): (r: Result<Sample>)
    ensures r.Ok? ==> |row| >= 2 && r.value.date == DateText(row)
    ensures |row| < 2 ==> r == Err(IndexError)
    ensures |row| >= 2 ==> r == ReadSample(num, row, cols, DateText(row))
  {
    if |row| < 2 then Err(IndexError) else ReadSample(num, row, cols, DateText(row))
  }

  function DataRowSample(num: Numerics, row: seq<string>, cols: Columns): (r: Result<Sample>)
    ensures r.Ok? ==> |row| >= 2 && r.value.date == DateText(row)
    // The timestamp is unpacked before any reading is parsed.
    ensures |row| < 2 ==> r == Err(IndexError)
    ensures |row| >= 2 && TextSplit.Occurrences(row[1], 'T') != 1 ==> r == Err(ValueError)
    // A row with a well-formed timestamp reads like the first row.
    ensures |row| >= 2 && TextSplit.Occurrences(row[1], 'T') == 1 ==> r == ReadSample(num, row, cols, DateText(row))
  {
    var date :- RowDate(row);
    ReadSample(num, row, cols, date)
  }

  /**
   * Only the later rows unpack their timestamp: a row whose readings parse but
   * whose timestamp has no 'T', or more than one, is accepted as the first data
   * row and rejected with ValueError as a later one.
   */
  lemma FirstRowAnyTimestamp(num: Numerics, row: seq<string>, cols: Columns)
    requires |row| >= 2 && TextSplit.Occurrences(row[1], 'T') != 1
    requires ReadSample(num, row, cols, DateText(row)).Ok?
    ensures FirstRowSample(num, row, cols).Ok?
    ensures FirstRowSample(num, row, cols).value.date == TextSplit.Split(row[1], 'T', 2)[0]
    ensures DataRowSample(num, row, cols) == Err(ValueError)
  {
  }

  /** The later data rows, read in order; the first failing row decides the error. */
  function DataRowSamples(num: Numerics, rows: seq<seq<string>>, cols: Columns): (r: Result<seq<Sample>>)
    ensures r.Ok? ==> |r.value| == |rows|
    ensures r.Ok? ==> forall k :: 0 <= k < |rows| ==> |rows[k]| >= 2 && r.value[k].date == DateText(rows[k])
  {
    if rows == [] then Ok([])
    else
      var init :- DataRowSamples(num, rows[..|rows| - 1], cols);
      var s :- DataRowSample(num, rows[|rows| - 1], cols);
      assert forall k :: 0 <= k < |rows| - 1 ==> rows[..|rows| - 1][k] == rows[k] && (init + [s])[k] == init[k];
      Ok(init + [s])
  }

  /**
   * The readings of a station file: a header row, a units row (skipped), and
   * at least one data row.
   */
  function Samples(num: Numerics, file: seq<seq<string>>): (r: Result<seq<Sample>>)
    ensures r.Ok? ==> |file| >= 3 && LookupColumns(file[0]).Ok? && |r.value| == |file| - 2
  {
    if |file| < 2 then Err(StopIteration)
    else
      var cols :- LookupColumns(file[0]);
      if |file| < 3 then Err(StopIteration)
      else
        var first :- FirstRowSample(num, file[2], cols);
        var rest :- DataRowSamples(num, file[3..], cols);
        Ok([first] + rest)
  }

  // ---------------------------------------------------------------- daily averages

  /** The five running sums: temperature, the two wind components, humidity, pressure. */
  datatype Sums = Sums(temp: real, windX: real, windY: real, humidity: real, pressure: real)

  const NoSums := Sums(0.0, 0.0, 0.0, 0.0, 0.0)

  function Plus(a: Sums, b: Sums): Sums {
    Sums(a.temp + b.temp, a.windX + b.windX, a.windY + b.windY, a.humidity + b.humidity, a.pressure + b.pressure)
  }

  /** What one reading adds to the sums: wind as the vector (speed cos(angle), speed sin(angle)). */
  function Contribution(num: Numerics, s: Sample): (c: Sums)
    ensures s.speed == 0.0 ==> c.windX == 0.0 && c.windY == 0.0
  {
    Sums(s.temp, s.speed * num.cosDeg(s.angle), s.speed * num.sinDeg(s.angle), s.humidity, s.pressure)
  }

  /** The sums over a run, started from zero. */
  function RunSum(num: Numerics, run: seq<Sample>): Sums {
    if run == [] then NoSums
    else Plus(RunSum(num, run[..|run| - 1]), Contribution(num, run[|run| - 1]))
  }

  /** The record stored for a run: [T, Wx, Wy, H, P], each sum divided by the run's length. */
  function Record(sums: Sums, count: real): (v: seq<real>)
    requires count != 0.0
    ensures |v| == 5
    // Each field is its sum's mean: times the count it gives the sum back.
    ensures v[0] * count == sums.temp && v[1] * count == sums.windX && v[2] * count == sums.windY
    ensures v[3] * count == sums.humidity && v[4] * count == sums.pressure
  {
    [sums.temp / count, sums.windX / count, sums.windY / count, sums.humidity / count, sums.pressure / count]
  }

  /** The record of a run: the mean of each of the five sums over the run's readings. */
  function Average(num: Numerics, run: seq<Sample>): (v: seq<real>)
    requires |run| > 0
    ensures |v| == 5
    ensures var n, sums := |run| as real, RunSum(num, run);
      v[0] * n == sums.temp && v[1] * n == sums.windX && v[2] * n == sums.windY &&
      v[3] * n == sums.humidity && v[4] * n == sums.pressure
  {
    Record(RunSum(num, run), |run| as real)
  }

  /** The readings cut into maximal runs of consecutive readings with the same date. */
  function Runs(s: seq<Sample>): (runs: seq<seq<Sample>>)
    ensures forall j :: 0 <= j < |runs| ==> |runs[j]| > 0
    ensures |runs| == 0 <==> |s| == 0
    ensures |runs| <= |s|
  {
    if s == [] then [] else NextRuns(Runs(s[..|s| - 1]), s[|s| - 1])
  }

  /** One more reading: it extends the open run when it has that run's date, else opens a new run. */
  function NextRuns(runs: seq<seq<Sample>>, x: Sample): (runs': seq<seq<Sample>>)
    requires forall j :: 0 <= j < |runs| ==> |runs[j]| > 0
    ensures forall j :: 0 <= j < |runs'| ==> |runs'[j]| > 0
    ensures 0 < |runs'| <= |runs| + 1
  {
    if runs != [] && runs[|runs| - 1][0].date == x.date
    then runs[..|runs| - 1] + [runs[|runs| - 1] + [x]]
    else runs + [[x]]
  }

  /** processed_data[run date] = run average, for each run in order. */
  function RunRecords(num: Numerics, runs: seq<seq<Sample>>): (ps: seq<(string, seq<real>)>)
    requires forall j :: 0 <= j < |runs| ==> |runs[j]| > 0
    ensures |ps| == |runs|
    ensures forall j :: 0 <= j < |runs| ==> ps[j] == (runs[j][0].date, Average(num, runs[j]))
  {
    seq(|runs|, j requires 0 <= j < |runs| => (runs[j][0].date, Average(num, runs[j])))
  }

  function DailyAverages(num: Numerics, samples: seq<Sample>): (d: Dict<string, seq<real>>)
    ensures d.Valid()
  {
    FromPairsValid(RunRecords(num, Runs(samples)));
    FromPairs(RunRecords(num, Runs(samples)))
  }

  /** What process_meso_data returns for a station file. */
  function MesoSpec(num: Numerics, file: seq<seq<string>>): (r: Result<Dict<string, seq<real>>>)
    // The header, units and first data row must be there, and the header must name all five columns.
    ensures |file| < 2 ==> r == Err(StopIteration)
    ensures |file| >= 2 && (exists c :: c in RequiredColumns && c !in file[0]) ==> r == Err(ValueError)
    ensures |file| == 2 && (forall c :: c in RequiredColumns ==> c in file[0]) ==> r == Err(StopIteration)
    ensures r.Ok? ==> r.value.Valid()
  {
    var samples :- Samples(num, file);
    FromPairsValid(RunRecords(num, Runs(samples)));
    Ok(DailyAverages(num, samples))
  }

  // ---------------------------------------------------------------- the aggregation loop

  method ProcessMesoData(num: Numerics, file: seq<seq<string>>) returns (r: Result<Dict<string, seq<real>>>)
    ensures r == MesoSpec(num, file)
  {
    if |file| < 2 {
      return Err(StopIteration);
    }
    var header := file[0];
    var colsR := LookupColumns(header);
    if colsR.Err? {
      return Err(colsR.error);
    }
    var cols := colsR.value;
    if |file| < 3 {
      return Err(StopIteration);
    }
    var firstR := FirstRowSample(num, file[2], cols);
    if firstR.Err? {
      return Err(firstR.error);
    }
    r := AccumulateRuns(num, file, cols, firstR.value);
  }

  /**
   * The aggregation loop over the data rows after the first: running sums per
   * field and a count, stored and reset whenever the date changes.
   */
  method AccumulateRuns(num: Numerics, file: seq<seq<string>>, cols: Columns, first: Sample)
    returns (r: Result<Dict<string, seq<real>>>)
    requires |file| >= 3
    ensures DataRowSamples(num, file[3..], cols).Err? ==> r == Err(DataRowSamples(num, file[3..], cols).error)
    ensures DataRowSamples(num, file[3..], cols).Ok? ==>
      r == Ok(DailyAverages(num, [first] + DataRowSamples(num, file[3..], cols).value))
  {
    var currentDate := first.date;
    var avgTemp := first.temp;
    var avgHumidity := first.humidity;
    var avgWind := [first.speed * num.cosDeg(first.angle), first.speed * num.sinDeg(first.angle)];
    var avgPressure := first.pressure;
    var count := 1.0;
    var processed: Dict<string, seq<real>> := Empty();
    ghost var samples, rest := [first], [];
    FirstRun(num, first);
    assert file[3..3] == [];

    var i := 3;
    while i < |file|
      invariant 3 <= i <= |file|
      invariant samples == [first] + rest && |rest| == i - 3
      invariant DataRowSamples(num, file[3..i], cols) == Ok(rest)
      invariant |avgWind| == 2
      invariant OpenRun(num, samples, processed, currentDate, count,
                        Sums(avgTemp, avgWind[0], avgWind[1], avgHumidity, avgPressure))
    {
      var row := file[i];
      // Unpack the timestamp, then read the five fields.
      var sR := DataRowSample(num, row, cols);
      if sR.Err? {
        DataRowFails(num, file, cols, i);
        return Err(sR.error);
      }
      var s := sR.value;
      var date := s.date;
      DataRowSamplesNext(num, file, cols, i, rest, s);
      var sums := Sums(avgTemp, avgWind[0], avgWind[1], avgHumidity, avgPressure);
      if date != currentDate {
        // End of a run: store its averages and start the next from zero.
        StartRun(num, samples, processed, currentDate, count, sums, s);
        processed := processed.Set(currentDate, Record(sums, count));
        avgTemp := 0.0;
        avgWind := [0.0, 0.0];
        avgHumidity := 0.0;
        avgPressure := 0.0;
        count := 0.0;
        currentDate := date;
      } else {
        ExtendRun(num, samples, processed, currentDate, count, sums, s);
      }
      ghost var pre := Sums(avgTemp, avgWind[0], avgWind[1], avgHumidity, avgPressure);
      ghost var preCount := count;
      assert ReadyFor(num, samples, s, processed, currentDate, preCount, pre);
      var c := Contribution(num, s);
      avgTemp := avgTemp + c.temp;
      avgHumidity := avgHumidity + c.humidity;
      avgWind := [avgWind[0] + c.windX, avgWind[1] + c.windY];
      avgPressure := avgPressure + c.pressure;
      count := count + 1.0;
      Advance(num, samples, s, processed, currentDate, preCount, pre,
              Sums(avgTemp, avgWind[0], avgWind[1], avgHumidity, avgPressure));
      AppendAfterFirst(first, rest, s);
      samples, rest := samples + [s], rest + [s];
      i := i + 1;
    }
    assert file[3..i] == file[3..];
    CloseRun(num, samples, processed, currentDate, count, Sums(avgTemp, avgWind[0], avgWind[1], avgHumidity, avgPressure));
    processed := processed.Set(currentDate, Record(Sums(avgTemp, avgWind[0], avgWind[1], avgHumidity, avgPressure), count));
    return Ok(processed);
  }

  /** The state after the first data row: one open run of one reading. */
  lemma FirstRun(num: Numerics, first: Sample)
    ensures OpenRun(num, [first], Empty(), first.date, 1.0,
                    Sums(first.temp, first.speed * num.cosDeg(first.angle), first.speed * num.sinDeg(first.angle),
                         first.humidity, first.pressure))
  {
    assert [first][..0] == [];
    assert Runs([first]) == [[first]];
  }

  /** A reading with the open run's date joins it. */
  lemma ExtendRun(num: Numerics, samples: seq<Sample>, processed: Dict<string, seq<real>>,
                  currentDate: string, count: real, sums: Sums, s: Sample)
    requires OpenRun(num, samples, processed, currentDate, count, sums)
    requires s.date == currentDate
    ensures ReadyFor(num, samples, s, processed, currentDate, count, sums)
  {
    var runs := Runs(samples);
    var open := Last(runs);
    RunsAppend(samples, s);
    var runs' := Runs(samples + [s]);
    assert runs' == runs[..|runs| - 1] + [open + [s]];
    assert runs'[..|runs'| - 1] == runs[..|runs| - 1];
    assert Last(runs') == open + [s];
    RunSumAppend(num, open, s);
  }

  /** A reading with another date closes the open run and opens a new one. */
  lemma StartRun(num: Numerics, samples: seq<Sample>, processed: Dict<string, seq<real>>,
                 currentDate: string, count: real, sums: Sums, s: Sample)
    requires OpenRun(num, samples, processed, currentDate, count, sums)
    requires s.date != currentDate
    ensures count > 0.0 && processed.Valid()
    ensures ReadyFor(num, samples, s, processed.Set(currentDate, Record(sums, count)), s.date, 0.0, NoSums)
  {
    CloseRun(num, samples, processed, currentDate, count, sums);
    RunsAppend(samples, s);
    var runs' := Runs(samples + [s]);
    assert runs' == Runs(samples) + [[s]];
    assert runs'[..|runs'| - 1] == Runs(samples);
    assert Last(runs') == [s];
    assert [s][..0] == [];
  }

  lemma DataRowSamplesAppend(num: Numerics, rows: seq<seq<string>>, row: seq<string>, cols: Columns)
    ensures DataRowSamples(num, rows + [row], cols) ==
      match DataRowSamples(num, rows, cols)
      case Err(e) => Err(e)
      case Ok(ss) => match DataRowSample(num, row, cols)
        case Err(e) => Err(e)
        case Ok(s) => Ok(ss + [s])
  {
    assert (rows + [row])[..|rows|] == rows;
  }

  lemma DataRowSamplesSlice(num: Numerics, file: seq<seq<string>>, cols: Columns, i: nat)
    requires 3 <= i < |file|
    ensures DataRowSamples(num, file[3..i + 1], cols) ==
      match DataRowSamples(num, file[3..i], cols)
      case Err(e) => Err(e)
      case Ok(ss) => match DataRowSample(num, file[i], cols)
        case Err(e) => Err(e)
        case Ok(s) => Ok(ss + [s])
  {
    assert file[3..i + 1] == file[3..i] + [file[i]];
    DataRowSamplesAppend(num, file[3..i], file[i], cols);
  }

  lemma DataRowSamplesNext(num: Numerics, file: seq<seq<string>>, cols: Columns, i: nat, rest: seq<Sample>, s: Sample)
    requires 3 <= i < |file|
    requires DataRowSamples(num, file[3..i], cols) == Ok(rest)
    requires DataRowSample(num, file[i], cols) == Ok(s)
    ensures DataRowSamples(num, file[3..i + 1], cols) == Ok(rest + [s])
  {
    DataRowSamplesSlice(num, file, cols, i);
  }

  /** A failing data row i makes the whole file fail, with the error of the rows read so far. */
  lemma DataRowFails(num: Numerics, file: seq<seq<string>>, cols: Columns, i: nat)
    requires 3 <= i < |file|
    requires DataRowSamples(num, file[3..i], cols).Ok?
    requires DataRowSample(num, file[i], cols).Err?
    ensures DataRowSamples(num, file[3..], cols) == Err(DataRowSample(num, file[i], cols).error)
  {
    DataRowSamplesSlice(num, file, cols, i);
    assert file[3..][..i + 1 - 3] == file[3..i + 1];
    DataRowErrorPersists(num, file[3..], cols, i + 1 - 3);
  }

  function Last<T>(s: seq<T>): T
    requires |s| > 0
  {
    s[|s| - 1]
  }

  /**
   * The loop's state after reading `samples`: every run but the last is
   * stored, and the accumulators hold the last (open) run's sums and length.
   */
  ghost predicate OpenRun(num: Numerics, samples: seq<Sample>, processed: Dict<string, seq<real>>,
                          currentDate: string, count: real, sums: Sums)
  {
    var runs := Runs(samples);
    && runs != []
    && currentDate == Last(runs)[0].date
    && count == |Last(runs)| as real
    && sums == RunSum(num, Last(runs))
    && processed == FromPairs(RunRecords(num, runs[..|runs| - 1]))
  }

  /** The state just before s is added in: adding it gives the state after `samples + [s]`. */
  ghost predicate ReadyFor(num: Numerics, samples: seq<Sample>, s: Sample, processed: Dict<string, seq<real>>,
                           currentDate: string, count: real, sums: Sums)
  {
    OpenRun(num, samples + [s], processed, currentDate, count + 1.0, Plus(sums, Contribution(num, s)))
  }

  lemma AppendAfterFirst<T>(first: T, rest: seq<T>, x: T)
    ensures [first] + rest + [x] == [first] + (rest + [x])
  {
  }

  /** Adding s to the accumulators field by field completes the step ReadyFor prepares. */
  lemma Advance(num: Numerics, samples: seq<Sample>, s: Sample, processed: Dict<string, seq<real>>,
                currentDate: string, count: real, pre: Sums, post: Sums)
    requires ReadyFor(num, samples, s, processed, currentDate, count, pre)
    requires var c := Contribution(num, s);
      && post.temp == pre.temp + c.temp && post.windX == pre.windX + c.windX && post.windY == pre.windY + c.windY
      && post.humidity == pre.humidity + c.humidity && post.pressure == pre.pressure + c.pressure
    ensures OpenRun(num, samples + [s], processed, currentDate, count + 1.0, post)
  {
  }

  /** Storing the open run's averages stores all the runs. */
  lemma CloseRun(num: Numerics, samples: seq<Sample>, processed: Dict<string, seq<real>>,
                 currentDate: string, count: real, sums: Sums)
    requires OpenRun(num, samples, processed, currentDate, count, sums)
    ensures count > 0.0
    ensures processed.Valid()
    ensures processed.Set(currentDate, Record(sums, count)) == FromPairs(RunRecords(num, Runs(samples)))
  {
    var runs := Runs(samples);
    var init, open := runs[..|runs| - 1], Last(runs);
    FromPairsValid(RunRecords(num, init));
    RunRecordsAppend(num, init, open);
    assert runs == init + [open];
    FromPairsAppend(RunRecords(num, init), currentDate, Record(sums, count));
  }

  lemma RunRecordsAppend(num: Numerics, runs: seq<seq<Sample>>, run: seq<Sample>)
    requires forall j :: 0 <= j < |runs| ==> |runs[j]| > 0
    requires |run| > 0
    ensures RunRecords(num, runs + [run]) == RunRecords(num, runs) + [(run[0].date, Average(num, run))]
  {
  }

  lemma RunsAppend(s: seq<Sample>, x: Sample)
    ensures Runs(s + [x]) == NextRuns(Runs(s), x)
  {
    assert (s + [x])[..|s|] == s;
  }

  lemma RunSumAppend(num: Numerics, run: seq<Sample>, x: Sample)
    ensures RunSum(num, run + [x]) == Plus(RunSum(num, run), Contribution(num, x))
  {
    assert (run + [x])[..|run|] == run;
  }

  /** After the reset to zero, a new day's first reading leaves exactly its own contribution in the sums. */
  lemma ResetSums(num: Numerics, x: Sample)
    ensures Plus(NoSums, Contribution(num, x)) == Contribution(num, x)
    ensures RunSum(num, [x]) == Contribution(num, x)
  {
    assert [x][..0] == [];
  }

  /** The running sums do not depend on the order or grouping of the additions, and zero adds nothing. */
  lemma SumsGrouping(a: Sums, b: Sums, c: Sums)
    ensures Plus(a, b) == Plus(b, a)
    ensures Plus(Plus(a, b), c) == Plus(a, Plus(b, c))
    ensures Plus(a, NoSums) == a && Plus(NoSums, a) == a
  {
  }

  /** Summing a run in two pieces and adding the two sums gives the sums of the whole run. */
  lemma {:induction false} RunSumSplit(num: Numerics, first: seq<Sample>, second: seq<Sample>)
    ensures RunSum(num, first + second) == Plus(RunSum(num, first), RunSum(num, second))
    decreases |second|
  {
    if second == [] {
      assert first + second == first;
      SumsGrouping(RunSum(num, first), NoSums, NoSums);
    } else {
      var init, x := second[..|second| - 1], second[|second| - 1];
      assert second == init + [x];
      assert first + second == (first + init) + [x];
      RunSumSplit(num, first, init);
      RunSumAppend(num, first + init, x);
      RunSumAppend(num, init, x);
      SumsGrouping(RunSum(num, first), RunSum(num, init), Contribution(num, x));
    }
  }

  /** Once a prefix of the data rows fails, the whole sequence fails the same way. */
  lemma {:induction false} DataRowErrorPersists(num: Numerics, rows: seq<seq<string>>, cols: Columns, k: nat)
    requires k <= |rows|
    requires DataRowSamples(num, rows[..k], cols).Err?
    ensures DataRowSamples(num, rows, cols) == DataRowSamples(num, rows[..k], cols)
  {
    if k < |rows| {
      assert rows[..|rows| - 1][..k] == rows[..k];
      DataRowErrorPersists(num, rows[..|rows| - 1], cols, k);
    } else {
      assert rows[..k] == rows;
    }
  }

  // ---------------------------------------------------------------- properties

  function Dates(samples: seq<Sample>): (ds: seq<string>)
    ensures |ds| == |samples| && forall k :: 0 <= k < |samples| ==> ds[k] == samples[k].date
  {
    seq(|samples|, k requires 0 <= k < |samples| => samples[k].date)
  }

  function RunDates(runs: seq<seq<Sample>>): (ds: seq<string>)
    requires forall j :: 0 <= j < |runs| ==> |runs[j]| > 0
    ensures |ds| == |runs| && forall j :: 0 <= j < |runs| ==> ds[j] == runs[j][0].date
  {
    seq(|runs|, j requires 0 <= j < |runs| => runs[j][0].date)
  }

  function Flatten<T>(runs: seq<seq<T>>): seq<T> {
    if runs == [] then [] else Flatten(runs[..|runs| - 1]) + runs[|runs| - 1]
  }

  /** All readings of each run share the run's date. */
  ghost predicate UniformRuns(runs: seq<seq<Sample>>) {
    forall j, k :: 0 <= j < |runs| && 0 <= k < |runs[j]| ==> runs[j][k].date == runs[j][0].date
  }

  /** Neighbouring runs have different dates. */
  ghost predicate SeparateRuns(runs: seq<seq<Sample>>)
    requires forall j :: 0 <= j < |runs| ==> |runs[j]| > 0
  {
    forall j :: 0 < j < |runs| ==> runs[j - 1][0].date != runs[j][0].date
  }

  /**
   * The runs cut the readings into consecutive groups: put back together they
   * are the readings, all readings of a run share its date, and neighbouring
   * runs have different dates.
   */
  lemma {:induction false} RunsPartition(s: seq<Sample>)
    ensures Flatten(Runs(s)) == s
    ensures UniformRuns(Runs(s))
    ensures SeparateRuns(Runs(s))
  {
    if s != [] {
      var p, x := s[..|s| - 1], s[|s| - 1];
      assert s == p + [x];
      RunsPartition(p);
      var runs: seq<seq<Sample>> := Runs(p);
      assert Runs(s) == NextRuns(runs, x);
      if runs != [] && runs[|runs| - 1][0].date == x.date {
        RunExtends(runs, x);
      } else {
        RunOpens(runs, x);
      }
    }
  }

  lemma RunExtends(runs: seq<seq<Sample>>, x: Sample)
    requires forall j :: 0 <= j < |runs| ==> |runs[j]| > 0
    requires runs != [] && runs[|runs| - 1][0].date == x.date
    requires UniformRuns(runs) && SeparateRuns(runs)
    ensures var runs' := runs[..|runs| - 1] + [runs[|runs| - 1] + [x]];
      Flatten(runs') == Flatten(runs) + [x] && UniformRuns(runs') && SeparateRuns(runs')
  {
    var init, last := runs[..|runs| - 1], runs[|runs| - 1];
    var runs' := init + [last + [x]];
    assert runs == init + [last];
    assert runs'[..|runs'| - 1] == init;
    assert Flatten(runs') == Flatten(init) + (last + [x]);
    forall j, k | 0 <= j < |runs'| && 0 <= k < |runs'[j]|
      ensures runs'[j][k].date == runs'[j][0].date
    {
      if j < |init| {
        assert runs'[j] == runs[j];
      } else if k < |last| {
        assert runs'[j][k] == last[k];
      }
    }
  }

  lemma RunOpens(runs: seq<seq<Sample>>, x: Sample)
    requires forall j :: 0 <= j < |runs| ==> |runs[j]| > 0
    requires runs == [] || runs[|runs| - 1][0].date != x.date
    requires UniformRuns(runs) && SeparateRuns(runs)
    ensures var runs' := runs + [[x]];
      Flatten(runs') == Flatten(runs) + [x] && UniformRuns(runs') && SeparateRuns(runs')
  {
    assert (runs + [[x]])[..|runs|] == runs;
  }

  /** Listing each run's date, then dropping repeats, gives the readings' dates in first-seen order. */
  lemma {:induction false} RunDatesDedup(s: seq<Sample>)
    ensures Dedup(RunDates(Runs(s))) == Dedup(Dates(s))
  {
    if s != [] {
      var p, x := s[..|s| - 1], s[|s| - 1];
      assert s == p + [x];
      RunDatesDedup(p);
      RunsAppend(p, x);
      assert Dates(s) == Dates(p) + [x.date];
      RunDatesStep(Runs(p), Dates(p), x);
    }
  }

  /** The induction step of RunDatesDedup: one more reading. */
  lemma RunDatesStep(runs: seq<seq<Sample>>, dates: seq<string>, x: Sample)
    requires forall j :: 0 <= j < |runs| ==> |runs[j]| > 0
    requires Dedup(RunDates(runs)) == Dedup(dates)
    ensures Dedup(RunDates(NextRuns(runs, x))) == Dedup(dates + [x.date])
  {
    if runs != [] && runs[|runs| - 1][0].date == x.date {
      RunDatesExtend(runs, x);
      SameDateDedup(runs, dates, x);
    } else {
      RunDatesOpen(runs, x);
      DedupSnocSame(RunDates(runs), dates, x.date);
    }
  }

  /** A reading with the open run's date adds no new date. */
  lemma SameDateDedup(runs: seq<seq<Sample>>, dates: seq<string>, x: Sample)
    requires forall j :: 0 <= j < |runs| ==> |runs[j]| > 0
    requires runs != [] && runs[|runs| - 1][0].date == x.date
    requires Dedup(RunDates(runs)) == Dedup(dates)
    ensures Dedup(RunDates(runs)) == Dedup(dates + [x.date])
  {
    assert RunDates(runs)[|runs| - 1] == x.date;
    assert x.date in Dedup(RunDates(runs));
    DedupAppend(dates, x.date);
  }

  /** Sequences with the same Dedup still have the same Dedup after one more element. */
  lemma DedupSnocSame<K(!new)>(a: seq<K>, b: seq<K>, x: K)
    requires Dedup(a) == Dedup(b)
    ensures Dedup(a + [x]) == Dedup(b + [x])
  {
    DedupAppend(a, x);
    DedupAppend(b, x);
    assert x in a <==> x in Dedup(a);
  }

  lemma RunDatesExtend(runs: seq<seq<Sample>>, x: Sample)
    requires forall j :: 0 <= j < |runs| ==> |runs[j]| > 0
    requires runs != []
    ensures RunDates(runs[..|runs| - 1] + [runs[|runs| - 1] + [x]]) == RunDates(runs)
  {
    var runs' := runs[..|runs| - 1] + [runs[|runs| - 1] + [x]];
    assert forall j :: 0 <= j < |runs| ==> runs'[j][0] == runs[j][0];
  }

  lemma RunDatesOpen(runs: seq<seq<Sample>>, x: Sample)
    requires forall j :: 0 <= j < |runs| ==> |runs[j]| > 0
    ensures RunDates(runs + [[x]]) == RunDates(runs) + [x.date]
  {
  }

  /**
   * The dates of the daily averages are the readings' dates, in the order
   * each first appears, once each.
   */
  lemma DailyAveragesKeys(num: Numerics, samples: seq<Sample>)
    ensures DailyAverages(num, samples).keys == Dedup(Dates(samples))
    ensures forall d :: d in DailyAverages(num, samples).entries <==> exists k :: 0 <= k < |samples| && samples[k].date == d
  {
    var runs := Runs(samples);
    FromPairsSpec(RunRecords(num, runs));
    RecordDates(num, runs);
    RunDatesDedup(samples);
    var averages := DailyAverages(num, samples);
    assert averages.keys == Dedup(Dates(samples));
    forall d
      ensures d in DailyAverages(num, samples).entries <==> exists k :: 0 <= k < |samples| && samples[k].date == d
    {
      assert d in averages.entries <==> d in Dates(samples);
      if d in Dates(samples) {
        var k :| 0 <= k < |Dates(samples)| && Dates(samples)[k] == d;
        assert samples[k].date == d;
      }
      if exists k :: 0 <= k < |samples| && samples[k].date == d {
        var k :| 0 <= k < |samples| && samples[k].date == d;
        assert Dates(samples)[k] == d;
      }
    }
  }

  /** The records are keyed by the run dates, in run order. */
  lemma RecordDates(num: Numerics, runs: seq<seq<Sample>>)
    requires forall j :: 0 <= j < |runs| ==> |runs[j]| > 0
    ensures Fsts(RunRecords(num, runs)) == RunDates(runs)
  {
  }

  /** Run j is the last run dated d. */
  ghost predicate LastRunWith(runs: seq<seq<Sample>>, j: int, d: string)
    requires forall j :: 0 <= j < |runs| ==> |runs[j]| > 0
  {
    0 <= j < |runs| && runs[j][0].date == d && forall j' :: j < j' < |runs| ==> runs[j'][0].date != d
  }

  /**
   * A date's record is the mean of the LAST run of readings with that date: a
   * date that comes back after another date overwrites its earlier record.
   */
  lemma DailyAverageOfLastRun(num: Numerics, samples: seq<Sample>, d: string)
    requires d in DailyAverages(num, samples).entries
    ensures |DailyAverages(num, samples).entries[d]| == 5
    ensures exists j :: LastRunWith(Runs(samples), j, d) && DailyAverages(num, samples).entries[d] == Average(num, Runs(samples)[j])
  {
    var runs := Runs(samples);
    var ps := RunRecords(num, runs);
    FromPairsSpec(ps);
    var i :| IsLast(ps, i, d) && FromPairs(ps).entries[d] == ps[i].1;
    assert ps[i] == (runs[i][0].date, Average(num, runs[i]));
    forall j' | i < j' < |runs|
      ensures runs[j'][0].date != d
    {
      assert ps[j'].0 != d;
    }
    assert LastRunWith(runs, i, d);
  }

  /** With one unchanging temperature t over a run, its mean temperature is t. */
  lemma {:induction false} SteadyTemperature(num: Numerics, run: seq<Sample>, t: real)
    requires |run| > 0
    requires forall k :: 0 <= k < |run| ==> run[k].temp == t
    ensures Average(num, run)[0] == t
  {
    TemperatureSum(num, run, t);
    var n := |run| as real;
    assert RunSum(num, run).temp == n * t;
    assert (n * t) / n == t;
  }

  lemma {:induction false} TemperatureSum(num: Numerics, run: seq<Sample>, t: real)
    requires forall k :: 0 <= k < |run| ==> run[k].temp == t
    ensures RunSum(num, run).temp == |run| as real * t
  {
    if run != [] {
      TemperatureSum(num, run[..|run| - 1], t);
    }
  }

  /** A run whose readings all have wind speed 0 (a blank speed reads as 0) has no mean wind. */
  lemma {:induction false} CalmRun(num: Numerics, run: seq<Sample>)
    requires |run| > 0
    requires forall k :: 0 <= k < |run| ==> run[k].speed == 0.0
    ensures Average(num, run)[1] == 0.0 && Average(num, run)[2] == 0.0
  {
    CalmSum(num, run);
  }

  lemma {:induction false} CalmSum(num: Numerics, run: seq<Sample>)
    requires forall k :: 0 <= k < |run| ==> run[k].speed == 0.0
    ensures RunSum(num, run).windX == 0.0 && RunSum(num, run).windY == 0.0
  {
    if run != [] {
      CalmSum(num, run[..|run| - 1]);
      var c := Contribution(num, run[|run| - 1]);
      assert c.windX == 0.0 && c.windY == 0.0;
    }
  }

  /**
   * Two readings of one day with equal speeds and opposite directions cancel:
   * the day's mean wind is zero, where a mean of speeds would not be.
   */
  lemma OppositeWindsCancel(num: Numerics, a: Sample, b: Sample)
    requires a.date == b.date && a.speed == b.speed
    requires num.cosDeg(b.angle) == -num.cosDeg(a.angle) && num.sinDeg(b.angle) == -num.sinDeg(a.angle)
    ensures Average(num, [a, b])[1] == 0.0 && Average(num, [a, b])[2] == 0.0
  {
    assert [a, b][..1] == [a];
    assert [a][..0] == [];
    assert RunSum(num, [a]) == Plus(NoSums, Contribution(num, a));
    assert RunSum(num, [a, b]) == Plus(RunSum(num, [a]), Contribution(num, b));
    assert RunSum(num, [a, b]).windX == a.speed * num.cosDeg(a.angle) + b.speed * num.cosDeg(b.angle);
    assert RunSum(num, [a, b]).windY == a.speed * num.sinDeg(a.angle) + b.speed * num.sinDeg(b.angle);
  }

  /** Every data row becomes one reading, in file order, dated by its timestamp. */
  lemma SamplesOfRows(num: Numerics, file: seq<seq<string>>)
    requires Samples(num, file).Ok?
    ensures |Samples(num, file).value| == |file| - 2
    ensures forall k :: 2 <= k < |file| ==> |file[k]| >= 2 && Samples(num, file).value[k - 2].date == DateText(file[k])
    // Each reading holds its row's five fields.
    ensures forall k :: 2 <= k < |file| ==>
      ReadSample(num, file[k], LookupColumns(file[0]).value, DateText(file[k])) == Ok(Samples(num, file).value[k - 2])
  {
    var cols := LookupColumns(file[0]).value;
    var first := FirstRowSample(num, file[2], cols).value;
    var rest := DataRowSamples(num, file[3..], cols).value;
    assert Samples(num, file).value == [first] + rest;
    forall k | 2 <= k < |file|
      ensures |file[k]| >= 2 && Samples(num, file).value[k - 2].date == DateText(file[k])
      ensures ReadSample(num, file[k], cols, DateText(file[k])) == Ok(Samples(num, file).value[k - 2])
    {
      SampleAt(num, file, cols, first, rest, k);
    }
  }

  /** The reading of row k, for one k, the readings being `first` and then `rest`. */
  lemma SampleAt(num: Numerics, file: seq<seq<string>>, cols: Columns, first: Sample, rest: seq<Sample>, k: nat)
    requires |file| >= 3 && 2 <= k < |file|
    requires FirstRowSample(num, file[2], cols) == Ok(first)
    requires DataRowSamples(num, file[3..], cols) == Ok(rest)
    ensures |file[k]| >= 2 && ([first] + rest)[k - 2].date == DateText(file[k])
    ensures ReadSample(num, file[k], cols, DateText(file[k])) == Ok(([first] + rest)[k - 2])
  {
    if k > 2 {
      ConsIndex(first, rest, k - 3);
      LaterSampleAt(num, file, cols, rest, k);
    }
  }

  lemma LaterSampleAt(num: Numerics, file: seq<seq<string>>, cols: Columns, rest: seq<Sample>, k: nat)
    requires 3 <= k < |file|
    requires DataRowSamples(num, file[3..], cols) == Ok(rest)
    ensures |file[k]| >= 2 && rest[k - 3].date == DateText(file[k])
    ensures ReadSample(num, file[k], cols, DateText(file[k])) == Ok(rest[k - 3])
  {
    DataRowSamplesValues(num, file[3..], cols);
    assert file[3..][k - 3] == file[k];
    assert DataRowSample(num, file[k], cols) == Ok(rest[k - 3]);
  }

  lemma ConsIndex<T>(x: T, xs: seq<T>, j: nat)
    requires j < |xs|
    ensures ([x] + xs)[j + 1] == xs[j]
  {
  }

  /** Each later row's reading is what DataRowSample reads from it. */
  lemma {:induction false} DataRowSamplesValues(num: Numerics, rows: seq<seq<string>>, cols: Columns)
    requires DataRowSamples(num, rows, cols).Ok?
    ensures forall k :: 0 <= k < |rows| ==> DataRowSample(num, rows[k], cols) == Ok(DataRowSamples(num, rows, cols).value[k])
  {
    if rows != [] {
      var init := rows[..|rows| - 1];
      DataRowSamplesValues(num, init, cols);
      forall k | 0 <= k < |rows| - 1
        ensures DataRowSample(num, rows[k], cols) == Ok(DataRowSamples(num, rows, cols).value[k])
      {
        assert init[k] == rows[k];
      }
    }
  }

  /** The later rows read when every one of them does. */
  lemma {:induction false} AllRowsRead(num: Numerics, rows: seq<seq<string>>, cols: Columns)
    requires forall k :: 0 <= k < |rows| ==> DataRowSample(num, rows[k], cols).Ok?
    ensures DataRowSamples(num, rows, cols).Ok?
  {
    if rows != [] {
      var init := rows[..|rows| - 1];
      assert forall k :: 0 <= k < |init| ==> init[k] == rows[k];
      AllRowsRead(num, init, cols);
    }
  }

  /** A file reads when its header names the five columns and every data row reads. */
  lemma FileReads(num: Numerics, file: seq<seq<string>>)
    requires |file| >= 3 && LookupColumns(file[0]).Ok?
    requires FirstRowSample(num, file[2], LookupColumns(file[0]).value).Ok?
    requires forall k :: 3 <= k < |file| ==> DataRowSample(num, file[k], LookupColumns(file[0]).value).Ok?
    ensures Samples(num, file).Ok? && MesoSpec(num, file).Ok?
  {
    var cols := LookupColumns(file[0]).value;
    assert forall k :: 0 <= k < |file| - 3 ==> file[3..][k] == file[k + 3];
    AllRowsRead(num, file[3..], cols);
  }

  /** A file with a single data row that reads gives one record, dated by that row. */
  lemma OneRow(num: Numerics, file: seq<seq<string>>)
    requires |file| == 3 && LookupColumns(file[0]).Ok?
    requires FirstRowSample(num, file[2], LookupColumns(file[0]).value).Ok?
    ensures MesoSpec(num, file).Ok? && MesoSpec(num, file).value.keys == [DateText(file[2])]
  {
    FileReads(num, file);
    var samples := Samples(num, file).value;
    SamplesOfRows(num, file);
    DailyAveragesKeys(num, samples);
    assert Dates(samples) == [DateText(file[2])];
  }

  /** A date has a record exactly when some data row carries it. */
  lemma MesoDates(num: Numerics, file: seq<seq<string>>)
    requires MesoSpec(num, file).Ok?
    ensures forall d :: d in MesoSpec(num, file).value.entries <==>
      exists k :: 2 <= k < |file| && |file[k]| >= 2 && DateText(file[k]) == d
  {
    var samples := Samples(num, file).value;
    SamplesOfRows(num, file);
    DailyAveragesKeys(num, samples);
    forall d
      ensures d in MesoSpec(num, file).value.entries <==>
        exists k :: 2 <= k < |file| && |file[k]| >= 2 && DateText(file[k]) == d
    {
      if exists k :: 0 <= k < |samples| && samples[k].date == d {
        var k :| 0 <= k < |samples| && samples[k].date == d;
        assert 2 <= k + 2 < |file| && DateText(file[k + 2]) == d;
      }
      if exists k :: 2 <= k < |file| && |file[k]| >= 2 && DateText(file[k]) == d {
        var k :| 2 <= k < |file| && |file[k]| >= 2 && DateText(file[k]) == d;
        assert samples[k - 2].date == d;
      }
    }
  }

  /** Every later data row must unpack into a date and a time: exactly one 'T' in its timestamp. */
  lemma MesoBadTimestamp(num: Numerics, file: seq<seq<string>>, k: nat)
    requires 3 <= k < |file|
    requires |file[k]| < 2 || TextSplit.Occurrences(file[k][1], 'T') != 1
    ensures MesoSpec(num, file).Err?
    // When this is the first row that fails, the error is the unpack's.
    ensures LookupColumns(file[0]).Ok? && FirstRowSample(num, file[2], LookupColumns(file[0]).value).Ok? &&
            DataRowSamples(num, file[3..k], LookupColumns(file[0]).value).Ok? ==>
            MesoSpec(num, file) == Err(if |file[k]| < 2 then IndexError else ValueError)
  {
    if LookupColumns(file[0]).Ok? {
      var cols := LookupColumns(file[0]).value;
      BadRowFails(num, file[3..], cols, k - 3);
      if DataRowSamples(num, file[3..k], cols).Ok? {
        LaterBadRow(num, file, cols, k);
      }
      LaterRowsError(num, file);
    }
  }

  /** An error reading the later rows is the file's error, unless the first data row fails first. */
  lemma LaterRowsError(num: Numerics, file: seq<seq<string>>)
    requires |file| >= 3 && LookupColumns(file[0]).Ok?
    ensures DataRowSamples(num, file[3..], LookupColumns(file[0]).value).Err? ==> MesoSpec(num, file).Err?
    ensures var cols := LookupColumns(file[0]).value;
      FirstRowSample(num, file[2], cols).Ok? && DataRowSamples(num, file[3..], cols).Err? ==>
      MesoSpec(num, file) == Err(DataRowSamples(num, file[3..], cols).error)
  {
    var cols := LookupColumns(file[0]).value;
    if DataRowSamples(num, file[3..], cols).Err? {
      if FirstRowSample(num, file[2], cols).Ok? {
        assert Samples(num, file) == Err(DataRowSamples(num, file[3..], cols).error);
      } else {
        assert Samples(num, file).Err?;
      }
    }
  }

  lemma LaterBadRow(num: Numerics, file: seq<seq<string>>, cols: Columns, k: nat)
    requires 3 <= k < |file|
    requires |file[k]| < 2 || TextSplit.Occurrences(file[k][1], 'T') != 1
    requires DataRowSamples(num, file[3..k], cols).Ok?
    ensures DataRowSamples(num, file[3..], cols) == Err(if |file[k]| < 2 then IndexError else ValueError)
  {
    assert file[3..][..k - 3] == file[3..k];
    FirstBadRow(num, file[3..], cols, k - 3);
  }

  /** When the rows before row k read, the bad row k decides the error. */
  lemma FirstBadRow(num: Numerics, rows: seq<seq<string>>, cols: Columns, k: nat)
    requires k < |rows|
    requires |rows[k]| < 2 || TextSplit.Occurrences(rows[k][1], 'T') != 1
    requires DataRowSamples(num, rows[..k], cols).Ok?
    ensures DataRowSamples(num, rows, cols) == Err(if |rows[k]| < 2 then IndexError else ValueError)
  {
    assert rows[..k + 1][..k] == rows[..k];
    assert rows[..k + 1][k] == rows[k];
    DataRowErrorPersists(num, rows, cols, k + 1);
  }

  lemma BadRowFails(num: Numerics, rows: seq<seq<string>>, cols: Columns, k: nat)
    requires k < |rows|
    requires |rows[k]| < 2 || TextSplit.Occurrences(rows[k][1], 'T') != 1
    ensures DataRowSamples(num, rows, cols).Err?
  {
    assert RowDate(rows[k]).Err?;
    if DataRowSamples(num, rows, cols).Ok? {
      DataRowSamplesAllOk(num, rows, cols, k);
      assert false;
    }
  }

  lemma {:induction false} DataRowSamplesAllOk(num: Numerics, rows: seq<seq<string>>, cols: Columns, k: nat)
    requires k < |rows|
    requires DataRowSamples(num, rows, cols).Ok?
    ensures DataRowSample(num, rows[k], cols).Ok?
  {
    if k < |rows| - 1 {
      assert rows[..|rows| - 1][k] == rows[k];
      DataRowSamplesAllOk(num, rows[..|rows| - 1], cols, k);
    }
  }
}
