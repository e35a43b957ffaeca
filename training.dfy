/**
 * The dataset assembly of final.py: the air-quality and weather datasets,
 * loaded from their compact CSV files, are joined on date in air-quality
 * order. A joined row is the day's weather record followed by its
 * air-quality category, with the two worst categories folded into
 * "Unhealthy". The categories are then numbered (convert_class), and each
 * row gets the next day's class appended (time_series).
 */
module Training {
  import opened Wrappers
  import opened OrderedDicts
  import opened Loader
  import opened Labels

  const Hazardous := "Hazardous"
  const VeryUnhealthy := "Very Unhealthy"
  const Unhealthy := "Unhealthy"

  /** The category after folding the two worst into Unhealthy; every other category is kept. */
  function Collapse(category: string): (c: string)
    ensures c != Hazardous && c != VeryUnhealthy
    ensures category != Hazardous && category != VeryUnhealthy ==> c == category
    ensures category == Hazardous || category == VeryUnhealthy ==> c == Unhealthy
  {
    if category == Hazardous || category == VeryUnhealthy then Unhealthy else category
  }

  // ---------------------------------------------------------------- the join

  /** The dates of `dates` that the weather data also has, in the same order. */
  function Joined(dates: seq<string>, meso: Dict<string, seq<string>>): (r: seq<string>)
    ensures |r| <= |dates|
  {
    if dates == [] then []
    else
      var init := Joined(dates[..|dates| - 1], meso);
      var d := dates[|dates| - 1];
      if d in meso.entries then init + [d] else init
  }

  /** The dates final.py emits a row for: the air-quality dates, in order, that have weather data. */
  function JoinDates(epa: Dict<string, seq<string>>, meso: Dict<string, seq<string>>): (dates: seq<string>)
    ensures |dates| <= |epa.keys|
  {
    Joined(epa.keys, meso)
  }

  function Texts(fields: seq<string>): (cells: seq<Cell>)
    ensures |cells| == |fields| && forall i :: 0 <= i < |fields| ==> cells[i] == Text(fields[i])
  {
    seq(|fields|, i requires 0 <= i < |fields| => Text(fields[i]))
  }

  /** meso_data + [category], the category being epa_data[1] collapsed. */
  function JoinRow(mesoData: seq<string>, epaData: seq<string>): (row: seq<Cell>)
    requires |epaData| >= 2
    ensures |row| == |mesoData| + 1
    ensures row[|mesoData|] != Text(Hazardous) && row[|mesoData|] != Text(VeryUnhealthy)
  {
    Texts(mesoData) + [Text(Collapse(epaData[1]))]
  }

  /** Whether every date is in both datasets with at least a category in its air-quality row. */
  ghost predicate Joinable(epa: Dict<string, seq<string>>, meso: Dict<string, seq<string>>, dates: seq<string>) {
    forall d :: d in dates ==> d in epa.entries && d in meso.entries && |epa.entries[d]| >= 2
  }

  /** The joined rows for `dates`, one per date. */
  function JoinRows(epa: Dict<string, seq<string>>, meso: Dict<string, seq<string>>, dates: seq<string>): (rows: seq<seq<Cell>>)
    requires Joinable(epa, meso, dates)
    ensures |rows| == |dates|
  {
    seq(|dates|, i requires 0 <= i < |dates| => JoinRow(meso.entries[dates[i]], epa.entries[dates[i]]))
  }

  /**
   * What the loop of final.py builds: a joined date whose air-quality row
   * has no category column raises IndexError.
   */
  function JoinSpec(epa: Dict<string, seq<string>>, meso: Dict<string, seq<string>>): (r: Result<seq<seq<Cell>>>)
    requires epa.Valid()
    ensures r.Err? ==> r.error == IndexError
    ensures r.Ok? ==> |r.value| == |JoinDates(epa, meso)|
  {
    var dates := JoinDates(epa, meso);
    JoinedMembers(epa.keys, meso);
    if exists d :: d in dates && |epa.entries[d]| < 2 then Err(IndexError)
    else Ok(JoinRows(epa, meso, dates))
  }

  /**
   * The loop of final.py over epa.items(): each air-quality date with weather
   * data gets a new row object.
   */
  method Join(epa: Dict<string, seq<string>>, meso: Dict<string, seq<string>>) returns (r: Result<seq<Row>>)
    requires epa.Valid()
    ensures r.Ok? <==> JoinSpec(epa, meso).Ok?
    ensures r.Err? ==> r.error == IndexError
    ensures r.Ok? ==> DistinctRows(r.value) && forall j :: 0 <= j < |r.value| ==> fresh(r.value[j])
    ensures r.Ok? ==> Snapshot(r.value) == JoinSpec(epa, meso).value
  {
    var dataset: seq<Row> := [];
    ghost var dates: seq<string> := [];
    ghost var contents: seq<seq<Cell>> := [];
    var i := 0;
    while i < |epa.keys|
      invariant 0 <= i <= |epa.keys|
      invariant dates == Joined(epa.keys[..i], meso)
      invariant Joinable(epa, meso, dates)
      invariant DistinctRows(dataset) && forall j :: 0 <= j < |dataset| ==> fresh(dataset[j])
      invariant contents == JoinRows(epa, meso, dates)
      invariant Holds(dataset, contents)
    {
      var date := epa.keys[i];
      var epaData := epa.entries[date];
      JoinedStep(epa.keys, meso, i);
      if date in meso.entries {
        var mesoData := meso.entries[date];
        if |epaData| < 2 {
          JoinShort(epa, meso, i);
          return Err(IndexError);
        }
        var category := epaData[1];
        if category == Hazardous || category == VeryUnhealthy {
          category := Unhealthy;
        }
        JoinRowsSnoc(epa, meso, dates, date);
        var row;
        ghost var prev := dataset;
        dataset, row := AppendRow(dataset, contents, Texts(mesoData) + [Text(category)]);
        forall j | 0 <= j < |dataset| ensures fresh(dataset[j]) {
          if j < |prev| {
            assert dataset[j] == prev[j];
          }
        }
        dates, contents := dates + [date], contents + [Texts(mesoData) + [Text(category)]];
      }
      i := i + 1;
    }
    assert epa.keys[..i] == epa.keys;
    JoinDone(epa, meso);
    SnapshotIs(dataset, contents);
    return Ok(dataset);
  }

  /** A joined date without a category column makes the join fail. */
  lemma JoinShort(epa: Dict<string, seq<string>>, meso: Dict<string, seq<string>>, i: nat)
    requires epa.Valid() && i < |epa.keys|
    requires epa.keys[i] in meso.entries && |epa.entries[epa.keys[i]]| < 2
    ensures JoinSpec(epa, meso) == Err(IndexError)
  {
    JoinedMembers(epa.keys, meso);
    assert epa.keys[i] in JoinDates(epa, meso);
  }

  /** With every joined date complete, the join is the joined rows. */
  lemma JoinDone(epa: Dict<string, seq<string>>, meso: Dict<string, seq<string>>)
    requires epa.Valid() && Joinable(epa, meso, JoinDates(epa, meso))
    ensures JoinSpec(epa, meso) == Ok(JoinRows(epa, meso, JoinDates(epa, meso)))
  {
  }

  lemma JoinedStep(dates: seq<string>, meso: Dict<string, seq<string>>, i: nat)
    requires i < |dates|
    ensures Joined(dates[..i + 1], meso) ==
      if dates[i] in meso.entries then Joined(dates[..i], meso) + [dates[i]] else Joined(dates[..i], meso)
  {
    assert dates[..i + 1][..i] == dates[..i];
  }

  lemma JoinRowsSnoc(epa: Dict<string, seq<string>>, meso: Dict<string, seq<string>>, dates: seq<string>, d: string)
    requires Joinable(epa, meso, dates + [d])
    ensures Joinable(epa, meso, dates)
    ensures JoinRows(epa, meso, dates + [d]) == JoinRows(epa, meso, dates) + [JoinRow(meso.entries[d], epa.entries[d])]
  {
    assert forall x :: x in dates ==> x in dates + [d];
  }

  /** The row objects hold `contents`, one list each. */
  ghost predicate Holds(dataset: seq<Row>, contents: seq<seq<Cell>>)
    reads dataset
  {
    |dataset| == |contents| && forall j :: 0 <= j < |dataset| ==> dataset[j].cells == contents[j]
  }

  /** dataset.append(cells), cells being a new list object. */
  method AppendRow(dataset: seq<Row>, ghost contents: seq<seq<Cell>>, cells: seq<Cell>) returns (dataset': seq<Row>, row: Row)
    requires DistinctRows(dataset) && Holds(dataset, contents)
    ensures dataset' == dataset + [row] && fresh(row)
    ensures DistinctRows(dataset') && Holds(dataset', contents + [cells])
  {
    row := new Row(cells);
    DistinctRowsSnoc(dataset, row);
    dataset' := dataset + [row];
  }

  /** A fresh row object differs from every row already in the list. */
  lemma DistinctRowsSnoc(rows: seq<Row>, row: Row)
    requires DistinctRows(rows) && forall j :: 0 <= j < |rows| ==> rows[j] != row
    ensures DistinctRows(rows + [row])
  {
    assert (rows + [row])[..|rows|] == rows;
  }

  // ---------------------------------------------------------------- what the join contains

  /** A date is joined exactly when both datasets have it. */
  lemma {:induction false} JoinedMembers(dates: seq<string>, meso: Dict<string, seq<string>>)
    ensures forall d :: d in Joined(dates, meso) <==> d in dates && d in meso.entries
  {
    if dates != [] {
      var init := dates[..|dates| - 1];
      assert dates == init + [dates[|dates| - 1]];
      JoinedMembers(init, meso);
    }
  }

  /** No date is joined twice when the air-quality dates are distinct. */
  lemma {:induction false} JoinedDistinct(dates: seq<string>, meso: Dict<string, seq<string>>)
    requires Distinct(dates)
    ensures Distinct(Joined(dates, meso))
  {
    if dates != [] {
      var init, d := dates[..|dates| - 1], dates[|dates| - 1];
      assert dates == init + [d];
      JoinedDistinct(init, meso);
      JoinedMembers(init, meso);
      assert d !in init;
    }
  }

  /** Every element of r is in s, and r lists them in the order they first appear in s. */
  ghost predicate InOrderOf(r: seq<string>, s: seq<string>) {
    forall i, j :: 0 <= i < j < |r| ==> r[i] in s && r[j] in s && FirstIndex(s, r[i]) < FirstIndex(s, r[j])
  }

  /** The joined dates keep the order of the air-quality dates. */
  lemma {:induction false} JoinedOrder(dates: seq<string>, meso: Dict<string, seq<string>>)
    requires Distinct(dates)
    ensures InOrderOf(Joined(dates, meso), dates)
  {
    if dates != [] {
      var init, d := dates[..|dates| - 1], dates[|dates| - 1];
      assert dates == init + [d];
      JoinedOrder(init, meso);
      JoinedMembers(init, meso);
      var r0, r := Joined(init, meso), Joined(dates, meso);
      assert d !in init;
      forall i, j | 0 <= i < j < |r|
        ensures r[i] in dates && r[j] in dates && FirstIndex(dates, r[i]) < FirstIndex(dates, r[j])
      {
        assert r[i] == r0[i] && r0[i] in init;
        FirstIndexExtend(init, d, r0[i]);
        assert FirstIndex(dates, r[i]) == FirstIndex(init, r0[i]) < |init|;
        if j < |r0| {
          assert InOrderOf(r0, init);
          assert r[j] == r0[j] && r0[j] in init;
          FirstIndexExtend(init, d, r0[j]);
          assert FirstIndex(dates, r[j]) == FirstIndex(init, r0[j]);
          assert FirstIndex(init, r0[i]) < FirstIndex(init, r0[j]);
        } else {
          assert r[j] == d;
          FirstIndexNew(init, d);
          assert FirstIndex(dates, r[j]) == |init|;
        }
      }
    }
  }

  /** The join has at most as many rows as either dataset has dates. */
  lemma JoinLength(epa: Dict<string, seq<string>>, meso: Dict<string, seq<string>>)
    requires epa.Valid() && meso.Valid()
    ensures |JoinDates(epa, meso)| <= |epa.keys|
    ensures |JoinDates(epa, meso)| <= |meso.keys|
  {
    var dates := JoinDates(epa, meso);
    JoinedDistinct(epa.keys, meso);
    JoinedMembers(epa.keys, meso);
    DistinctCard(dates);
    SubsetCard((set x | x in dates), meso.entries.Keys);
    DictCard(meso);
  }

  /**
   * Row i of the join is the weather record of the i-th joined date followed
   * by its collapsed category, which is never Hazardous or Very Unhealthy.
   */
  lemma JoinContents(epa: Dict<string, seq<string>>, meso: Dict<string, seq<string>>)
    requires epa.Valid() && JoinSpec(epa, meso).Ok?
    ensures var dates, rows := JoinDates(epa, meso), JoinSpec(epa, meso).value;
      Joinable(epa, meso, dates) &&
      forall i :: 0 <= i < |rows| ==>
        && |rows[i]| == |meso.entries[dates[i]]| + 1
        && rows[i][..|rows[i]| - 1] == Texts(meso.entries[dates[i]])
        && rows[i][|rows[i]| - 1] == Text(Collapse(epa.entries[dates[i]][1]))
        && rows[i][|rows[i]| - 1] != Text(Hazardous) && rows[i][|rows[i]| - 1] != Text(VeryUnhealthy)
  {
    var dates, rows := JoinDates(epa, meso), JoinSpec(epa, meso).value;
    JoinedMembers(epa.keys, meso);
    forall i | 0 <= i < |rows|
      ensures rows[i][..|rows[i]| - 1] == Texts(meso.entries[dates[i]])
    {
      assert rows[i] == Texts(meso.entries[dates[i]]) + [Text(Collapse(epa.entries[dates[i]][1]))];
    }
  }

  // ---------------------------------------------------------------- the whole preparation

  /**
   * final.py up to time_series: load both files, join them, number the
   * labels, and append each row's next label.
   */
  function PrepareSpec(epaFile: seq<seq<string>>, mesoFile: seq<seq<string>>): (r: Result<(Dict<Cell, int>, seq<seq<Cell>>)>)
    // No step of the preparation raises ValueError.
    ensures r.Err? ==> r.error == StopIteration || r.error == IndexError
  {
    var epaLoaded :- LoadSpec(epaFile);
    var mesoLoaded :- LoadSpec(mesoFile);
    var joined :- JoinSpec(epaLoaded.1, mesoLoaded.1);
    ClassSeries(joined)
  }

  /** convert_class, then time_series on the rows it leaves. */
  function ClassSeries(joined: seq<seq<Cell>>): (r: Result<(Dict<Cell, int>, seq<seq<Cell>>)>)
    ensures r.Err? ==> r.error == IndexError
    ensures r.Ok? ==> |r.value.1| == if |joined| == 0 then 0 else |joined| - 1
  {
    var classes :- ConvertSpec(joined).0;
    var series :- TimeSeriesSpec(ConvertSpec(joined).1);
    Ok((classes, series))
  }

  /**
   * On rows that all have a label, both steps succeed: row i keeps its cells
   * but the label and ends with its own class and the next row's class.
   */
  lemma ClassSeriesRows(rows: seq<seq<Cell>>)
    requires forall j :: 0 <= j < |rows| ==> |rows[j]| > 0
    ensures ClassSeries(rows).Ok?
    ensures ClassSeries(rows).value.0 == Classes(RowLabels(rows, |rows|))
    ensures |ClassSeries(rows).value.1| == if |rows| == 0 then 0 else |rows| - 1
    ensures forall i :: 0 <= i < |ClassSeries(rows).value.1| ==>
      var classes := ClassSeries(rows).value.0;
      rows[i][|rows[i]| - 1] in classes.entries && rows[i + 1][|rows[i + 1]| - 1] in classes.entries &&
      ClassSeries(rows).value.1[i] == rows[i][..|rows[i]| - 1] +
        [Code(classes.entries[rows[i][|rows[i]| - 1]]), Code(classes.entries[rows[i + 1][|rows[i + 1]| - 1]])]
  {
    ClassSeriesValue(rows);
    ConvertComplete(rows);
    SeriesCells(rows, Classes(RowLabels(rows, |rows|)), ConvertSpec(rows).1, ClassSeries(rows).value.1);
  }

  /** On labelled rows, both steps succeed, with the numbering of all the labels. */
  lemma ClassSeriesValue(rows: seq<seq<Cell>>)
    requires forall j :: 0 <= j < |rows| ==> |rows[j]| > 0
    ensures TimeSeriesSpec(ConvertSpec(rows).1).Ok?
    ensures ClassSeries(rows) == Ok((Classes(RowLabels(rows, |rows|)), TimeSeriesSpec(ConvertSpec(rows).1).value))
  {
    ConvertComplete(rows);
  }

  /** A converted row followed by the next converted row's last cell: the row's cells, its class, the next class. */
  lemma SeriesCells(rows: seq<seq<Cell>>, classes: Dict<Cell, int>, converted: seq<seq<Cell>>, series: seq<seq<Cell>>)
    requires forall j :: 0 <= j < |rows| ==> |rows[j]| > 0
    requires |converted| == |rows|
    requires forall j :: 0 <= j < |rows| ==>
      var row, row' := rows[j], converted[j];
      row[|row| - 1] in classes.entries &&
      |row'| == |row| && row'[..|row| - 1] == row[..|row| - 1] && row'[|row| - 1] == Code(classes.entries[row[|row| - 1]])
    requires |series| < |rows| || |series| == 0
    requires forall i :: 0 <= i < |series| ==> series[i] == converted[i] + [converted[i + 1][|converted[i + 1]| - 1]]
    ensures forall i :: 0 <= i < |series| ==>
      series[i] == rows[i][..|rows[i]| - 1] +
        [Code(classes.entries[rows[i][|rows[i]| - 1]]), Code(classes.entries[rows[i + 1][|rows[i + 1]| - 1]])]
  {
    forall i | 0 <= i < |series|
      ensures series[i] == rows[i][..|rows[i]| - 1] +
        [Code(classes.entries[rows[i][|rows[i]| - 1]]), Code(classes.entries[rows[i + 1][|rows[i + 1]| - 1]])]
    {
      var x, y := rows[i], rows[i + 1];
      var a, b := Code(classes.entries[x[|x| - 1]]), Code(classes.entries[y[|y| - 1]]);
      SplitLast(converted[i]);
      assert converted[i + 1][|y| - 1] == b;
      SnocTwice(x[..|x| - 1], a, b);
    }
  }

  /**
   * Once both files load and the join succeeds, the whole preparation
   * succeeds, with one row fewer than the join (none for an empty join).
   */
  lemma PrepareOutcome(epaFile: seq<seq<string>>, mesoFile: seq<seq<string>>)
    requires LoadSpec(epaFile).Ok? && LoadSpec(mesoFile).Ok?
    requires JoinSpec(LoadSpec(epaFile).value.1, LoadSpec(mesoFile).value.1).Ok?
    ensures PrepareSpec(epaFile, mesoFile).Ok?
    ensures var n := |JoinDates(LoadSpec(epaFile).value.1, LoadSpec(mesoFile).value.1)|;
      |PrepareSpec(epaFile, mesoFile).value.1| == if n == 0 then 0 else n - 1
  {
    var epa, meso := LoadSpec(epaFile).value.1, LoadSpec(mesoFile).value.1;
    JoinContents(epa, meso);
    var joined := JoinSpec(epa, meso).value;
    assert forall j :: 0 <= j < |joined| ==> |joined[j]| > 0;
    ClassSeriesRows(joined);
    PrepareJoined(epaFile, mesoFile);
  }

  lemma SplitLast<T>(s: seq<T>)
    requires |s| > 0
    ensures s == s[..|s| - 1] + [s[|s| - 1]]
  {
  }

  lemma SnocTwice<T>(s: seq<T>, a: T, b: T)
    ensures s + [a] + [b] == s + [a, b]
  {
  }

  method Prepare(epaFile: seq<seq<string>>, mesoFile: seq<seq<string>>) returns (r: Result<(Dict<Cell, int>, seq<seq<Cell>>)>)
    ensures r == PrepareSpec(epaFile, mesoFile)
  {
    var epaR := LoadDataset(epaFile);
    if epaR.Err? {
      return Err(epaR.error);
    }
    var mesoR := LoadDataset(mesoFile);
    if mesoR.Err? {
      return Err(mesoR.error);
    }
    var epa, meso := epaR.value.1, mesoR.value.1;
    var rowsR := Join(epa, meso);
    if rowsR.Err? {
      return Err(rowsR.error);
    }
    var dataset := rowsR.value;
    ghost var joined := Snapshot(dataset);
    var convertedR := ConvertClass(dataset);
    if convertedR.Err? {
      ConvertOutcome(joined);
      return Err(convertedR.error);
    }
    var names, converted := convertedR.value.0, convertedR.value.1;
    var seriesR := TimeSeries(Snapshot(converted));
    if seriesR.Err? {
      return Err(seriesR.error);
    }
    return Ok((names, seriesR.value));
  }

  /** Once both files load and the join succeeds, the preparation is convert_class then time_series on the join. */
  lemma PrepareJoined(epaFile: seq<seq<string>>, mesoFile: seq<seq<string>>)
    requires LoadSpec(epaFile).Ok? && LoadSpec(mesoFile).Ok?
    requires JoinSpec(LoadSpec(epaFile).value.1, LoadSpec(mesoFile).value.1).Ok?
    ensures PrepareSpec(epaFile, mesoFile) == ClassSeries(JoinSpec(LoadSpec(epaFile).value.1, LoadSpec(mesoFile).value.1).value)
  {
  }
}
