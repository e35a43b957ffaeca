/**
 * process_epa_data: keep the rows of a raw air-quality file that belong to
 * Salt Lake county, Utah, keyed by date. A raw row is
 * [State, County, State Code, County Code, Date, AQI, Category,
 *  Defining Parameter, Defining Site, Number of Sites].
 */
module EpaData {
  import opened Wrappers
  import opened OrderedDicts

  predicate IsSaltLake(row: seq<string>) {
    |row| >= 2 && row[0] == "Utah" && row[1] == "Salt Lake"
  }

  /**
   * Evaluating `row[0] == 'Utah' and row[1] == 'Salt Lake'` and, for a kept
   * row, `row[4]` to `row[7]` indexes past the end of the row.
   */
  predicate RowFails(row: seq<string>) {
    |row| == 0 || (row[0] == "Utah" && |row| < 2) || (IsSaltLake(row) && |row| < 8)
  }

  /** The row is kept and is dated `date`. */
  predicate KeptWithDate(row: seq<string>, date: string) {
    IsSaltLake(row) && |row| >= 8 && row[4] == date
  }

  /** Row i is the last kept row of rows dated `date`. */
  ghost predicate LastKept(rows: seq<seq<string>>, i: int, date: string) {
    0 <= i < |rows| && KeptWithDate(rows[i], date) &&
    forall j :: i < j < |rows| ==> !KeptWithDate(rows[j], date)
  }

  /** The assignments data[row[4]] = [row[5], row[6], row[7]] of the kept rows, in order. */
  function Assignments(rows: seq<seq<string>>): (a: seq<(string, seq<string>)>)
    ensures |a| <= |rows|
    ensures forall k :: 0 <= k < |a| ==> |a[k].1| == 3
  {
    if rows == [] then []
    else
      var a := Assignments(rows[..|rows| - 1]);
      var row := rows[|rows| - 1];
      if IsSaltLake(row) && |row| >= 8 then a + [(row[4], row[5..8])] else a
  }

  lemma AssignmentsAppend(rows: seq<seq<string>>, row: seq<string>)
    ensures Assignments(rows + [row]) ==
      if IsSaltLake(row) && |row| >= 8 then Assignments(rows) + [(row[4], row[5..8])] else Assignments(rows)
  {
    assert (rows + [row])[..|rows|] == rows;
  }

  /** What process_epa_data returns for a file whose rows are `rows`. */
  function EpaSpec(rows: seq<seq<string>>): (r: Result<Dict<string, seq<string>>>)
    ensures r.Err? ==> r.error == IndexError
    ensures r.Ok? ==> r.value.Valid() && forall d :: d in r.value.entries ==> |r.value.entries[d]| == 3
  {
    if exists i :: 0 <= i < |rows| && RowFails(rows[i]) then Err(IndexError)
    else
      FromPairsValid(Assignments(rows));
      FromPairsSpec(Assignments(rows));
      Ok(FromPairs(Assignments(rows)))
  }

  method ProcessEpaData(rows: seq<seq<string>>) returns (r: Result<Dict<string, seq<string>>>)
    ensures r == EpaSpec(rows)
  {
    var data: Dict<string, seq<string>> := Empty();
    var i := 0;
    while i < |rows|
      invariant 0 <= i <= |rows|
      invariant forall j :: 0 <= j < i ==> !RowFails(rows[j])
      invariant data == FromPairs(Assignments(rows[..i]))
    {
      var row := rows[i];
      ghost var prev := data;
      if |row| == 0 {
        EpaFails(rows, i);
        return Err(IndexError);
      }
      if row[0] == "Utah" {
        if |row| < 2 {
          EpaFails(rows, i);
          return Err(IndexError);
        }
        if row[1] == "Salt Lake" {
          if |row| < 8 {
            EpaFails(rows, i);
            return Err(IndexError);
          }
          data := data.Set(row[4], [row[5], row[6], row[7]]);
        }
      }
      EpaAdvance(rows, i, prev);
      i := i + 1;
    }
    EpaDone(rows, data);
    return Ok(data);
  }

  /** A row that raises makes the whole file raise IndexError. */
  lemma EpaFails(rows: seq<seq<string>>, i: nat)
    requires i < |rows| && RowFails(rows[i])
    ensures EpaSpec(rows) == Err(IndexError)
  {
  }

  /** One more row that does not raise: a kept row adds its assignment. */
  lemma EpaAdvance(rows: seq<seq<string>>, i: nat, data: Dict<string, seq<string>>)
    requires i < |rows| && !RowFails(rows[i])
    requires forall j :: 0 <= j < i ==> !RowFails(rows[j])
    requires data == FromPairs(Assignments(rows[..i]))
    ensures forall j :: 0 <= j < i + 1 ==> !RowFails(rows[j])
    ensures FromPairs(Assignments(rows[..i + 1])) ==
      if IsSaltLake(rows[i]) then data.Set(rows[i][4], [rows[i][5], rows[i][6], rows[i][7]]) else data
  {
    var row := rows[i];
    assert rows[..i + 1] == rows[..i] + [row];
    AssignmentsAppend(rows[..i], row);
    if IsSaltLake(row) {
      assert [row[5], row[6], row[7]] == row[5..8];
      FromPairsAppend(Assignments(rows[..i]), row[4], row[5..8]);
    }
  }

  /** After the last row, with no row raising, the dict is EpaSpec's. */
  lemma EpaDone(rows: seq<seq<string>>, data: Dict<string, seq<string>>)
    requires forall j :: 0 <= j < |rows| ==> !RowFails(rows[j])
    requires data == FromPairs(Assignments(rows[..|rows|]))
    ensures EpaSpec(rows) == Ok(data)
  {
    assert rows[..|rows|] == rows;
  }


  /**
   * The dates of the result are exactly the dates of the kept rows, in
   * first-seen order, and each holds [AQI, category, parameter] of the LAST
   * kept row with that date.
   */
  lemma EpaEntries(rows: seq<seq<string>>)
    requires EpaSpec(rows).Ok?
    ensures var d := EpaSpec(rows).value;
      && d.keys == Dedup(Fsts(Assignments(rows)))
      && (forall date :: date in d.entries <==> exists i :: 0 <= i < |rows| && KeptWithDate(rows[i], date))
      && (forall date :: date in d.entries ==>
            exists i :: LastKept(rows, i, date) && d.entries[date] == [rows[i][5], rows[i][6], rows[i][7]])
  {
    FromPairsSpec(Assignments(rows));
    KeptEntries(rows);
  }

  lemma {:induction false} KeptEntries(rows: seq<seq<string>>)
    ensures var d := FromPairs(Assignments(rows));
      && (forall date :: date in d.entries <==> exists i :: 0 <= i < |rows| && KeptWithDate(rows[i], date))
      && (forall date :: date in d.entries ==>
            exists i :: LastKept(rows, i, date) && d.entries[date] == [rows[i][5], rows[i][6], rows[i][7]])
  {
    if rows != [] {
      var init, row := rows[..|rows| - 1], rows[|rows| - 1];
      assert rows == init + [row];
      AssignmentsAppend(init, row);
      KeptEntries(init);
      if IsSaltLake(row) && |row| >= 8 {
        FromPairsAppend(Assignments(init), row[4], row[5..8]);
      }
      FromPairsValid(Assignments(init));
      KeptStep(init, row, FromPairs(Assignments(init)), FromPairs(Assignments(rows)));
    }
  }

  /** One row's worth of KeptEntries: d is d0 after the assignment `row` makes, if any. */
  lemma KeptStep(init: seq<seq<string>>, row: seq<string>, d0: Dict<string, seq<string>>, d: Dict<string, seq<string>>)
    requires d0.Valid()
    requires IsSaltLake(row) && |row| >= 8 ==> d == d0.Set(row[4], row[5..8])
    requires !(IsSaltLake(row) && |row| >= 8) ==> d == d0
    requires forall date :: date in d0.entries <==> exists i :: 0 <= i < |init| && KeptWithDate(init[i], date)
    requires forall date :: date in d0.entries ==>
      exists i :: LastKept(init, i, date) && d0.entries[date] == [init[i][5], init[i][6], init[i][7]]
    ensures var rows := init + [row];
      && (forall date :: date in d.entries <==> exists i :: 0 <= i < |rows| && KeptWithDate(rows[i], date))
      && (forall date :: date in d.entries ==>
            exists i :: LastKept(rows, i, date) && d.entries[date] == [rows[i][5], rows[i][6], rows[i][7]])
  {
    KeptStepMembers(init, row, d0, d);
    KeptStepValues(init, row, d0, d);
  }

  lemma KeptStepMembers(init: seq<seq<string>>, row: seq<string>, d0: Dict<string, seq<string>>, d: Dict<string, seq<string>>)
    requires d0.Valid()
    requires IsSaltLake(row) && |row| >= 8 ==> d == d0.Set(row[4], row[5..8])
    requires !(IsSaltLake(row) && |row| >= 8) ==> d == d0
    requires forall date :: date in d0.entries <==> exists i :: 0 <= i < |init| && KeptWithDate(init[i], date)
    ensures var rows := init + [row];
      forall date :: date in d.entries <==> exists i :: 0 <= i < |rows| && KeptWithDate(rows[i], date)
  {
    var rows := init + [row];
    forall date
      ensures date in d.entries <==> exists i :: 0 <= i < |rows| && KeptWithDate(rows[i], date)
    {
      if date in d0.entries {
        var i :| 0 <= i < |init| && KeptWithDate(init[i], date);
        assert rows[i] == init[i];
      }
      if KeptWithDate(row, date) {
        assert KeptWithDate(rows[|init|], date);
      }
      if exists i :: 0 <= i < |rows| && KeptWithDate(rows[i], date) {
        var i :| 0 <= i < |rows| && KeptWithDate(rows[i], date);
        if i < |init| {
          assert init[i] == rows[i];
        }
      }
    }
  }

  lemma KeptStepValues(init: seq<seq<string>>, row: seq<string>, d0: Dict<string, seq<string>>, d: Dict<string, seq<string>>)
    requires d0.Valid()
    requires IsSaltLake(row) && |row| >= 8 ==> d == d0.Set(row[4], row[5..8])
    requires !(IsSaltLake(row) && |row| >= 8) ==> d == d0
    requires forall date :: date in d0.entries ==>
      exists i :: LastKept(init, i, date) && d0.entries[date] == [init[i][5], init[i][6], init[i][7]]
    ensures var rows := init + [row];
      forall date :: date in d.entries ==>
        exists i :: LastKept(rows, i, date) && d.entries[date] == [rows[i][5], rows[i][6], rows[i][7]]
  {
    var rows := init + [row];
    forall date | date in d.entries
      ensures exists i :: LastKept(rows, i, date) && d.entries[date] == [rows[i][5], rows[i][6], rows[i][7]]
    {
      if KeptWithDate(row, date) {
        assert row[5..8] == [row[5], row[6], row[7]];
        assert LastKept(rows, |rows| - 1, date);
      } else {
        var i :| LastKept(init, i, date) && d0.entries[date] == [init[i][5], init[i][6], init[i][7]];
        assert rows[i] == init[i];
        assert LastKept(rows, i, date);
      }
    }
  }
}
