/**
 * load_dataset: read a compact CSV file (a header row `Date, field, ...`
 * followed by one row per date) into its field names and a date-keyed dict
 * of the remaining columns, left as strings.
 */
module Loader {
  import opened Wrappers
  import opened OrderedDicts

  /** The assignments data[row[0]] = row[1:] of the data rows, in order. */
  function RowAssignments(rows: seq<seq<string>>): (ps: seq<(string, seq<string>)>)
    requires forall i :: 0 <= i < |rows| ==> |rows[i]| > 0
    ensures |ps| == |rows|
    ensures forall i :: 0 <= i < |rows| ==> ps[i] == (rows[i][0], rows[i][1..])
  {
    seq(|rows|, i requires 0 <= i < |rows| => (rows[i][0], rows[i][1..]))
  }

  /**
   * What load_dataset returns: no header row stops the reader, an empty
   * header cannot be popped, and a blank data row has no row[0].
   */
  function LoadSpec(file: seq<seq<string>>): (r: Result<(seq<string>, Dict<string, seq<string>>)>)
    ensures r.Ok? ==> r.value.1.Valid()
    ensures r.Err? ==> r.error == StopIteration || r.error == IndexError
  {
    if |file| == 0 then Err(StopIteration)
    else if |file[0]| == 0 then Err(IndexError)
    else if exists i :: 1 <= i < |file| && |file[i]| == 0 then Err(IndexError)
    else
      FromPairsValid(RowAssignments(file[1..]));
      Ok((file[0][1..], FromPairs(RowAssignments(file[1..]))))
  }

  method LoadDataset(file: seq<seq<string>>) returns (r: Result<(seq<string>, Dict<string, seq<string>>)>)
    ensures r == LoadSpec(file)
  {
    if |file| == 0 {
      return Err(StopIteration);
    }
    var header := file[0];
    if |header| == 0 {
      return Err(IndexError);
    }
    header := header[1..];
    var data: Dict<string, seq<string>> := Empty();
    var i := 1;
    while i < |file|
      invariant 1 <= i <= |file|
      invariant forall j :: 1 <= j < i ==> |file[j]| > 0
      invariant data == FromPairs(RowAssignments(file[1..i]))
    {
      var row := file[i];
      if |row| == 0 {
        assert |file[i]| == 0;
        return Err(IndexError);
      }
      LoadStep(file, i);
      data := data.Set(row[0], row[1..]);
      i := i + 1;
    }
    assert file[1..i] == file[1..];
    return Ok((header, data));
  }

  /** Reading data row i assigns data[row[0]] = row[1:]. */
  lemma LoadStep(file: seq<seq<string>>, i: nat)
    requires 1 <= i < |file| && forall j :: 1 <= j <= i ==> |file[j]| > 0
    ensures FromPairs(RowAssignments(file[1..i + 1])) == FromPairs(RowAssignments(file[1..i])).Set(file[i][0], file[i][1..])
  {
    assert RowAssignments(file[1..i + 1]) == RowAssignments(file[1..i]) + [(file[i][0], file[i][1..])];
    FromPairsAppend(RowAssignments(file[1..i]), file[i][0], file[i][1..]);
  }

  /** Data row i is the last row of file whose first column is `date`. */
  ghost predicate LastRowWith(file: seq<seq<string>>, i: int, date: string) {
    1 <= i < |file| && |file[i]| > 0 && file[i][0] == date &&
    forall j :: i < j < |file| ==> |file[j]| > 0 && file[j][0] != date
  }

  /**
   * The header loses its first (date) column; the dates are the first
   * columns of the data rows in first-seen order, and each maps to the rest
   * of the LAST row that carries it.
   */
  lemma LoadedEntries(file: seq<seq<string>>)
    requires LoadSpec(file).Ok?
    ensures var (header, d) := LoadSpec(file).value;
      && header == file[0][1..]
      && |d.keys| <= |file| - 1
      && d.keys == Dedup(Fsts(RowAssignments(file[1..])))
      && (forall date :: date in d.entries <==> exists i :: 1 <= i < |file| && file[i][0] == date)
      && (forall date :: date in d.entries ==>
            exists i :: LastRowWith(file, i, date) && d.entries[date] == file[i][1..])
  {
    var rows := file[1..];
    assert forall i :: 0 <= i < |rows| ==> |rows[i]| > 0 by {
      forall i | 0 <= i < |rows| ensures |rows[i]| > 0 {
        assert rows[i] == file[i + 1];
      }
    }
    FromPairsSpec(RowAssignments(rows));
    LoadedMembers(file);
    LoadedValues(file);
  }

  /** The dates loaded are those of the data rows. */
  lemma LoadedMembers(file: seq<seq<string>>)
    requires |file| > 0 && forall i :: 1 <= i < |file| ==> |file[i]| > 0
    ensures forall date :: date in FromPairs(RowAssignments(file[1..])).entries <==>
      exists i :: 1 <= i < |file| && file[i][0] == date
  {
    var rows := file[1..];
    var ps := RowAssignments(rows);
    FromPairsSpec(ps);
    var d := FromPairs(ps);
    forall date
      ensures date in d.entries <==> exists i :: 1 <= i < |file| && file[i][0] == date
    {
      if date in d.entries {
        assert date in Fsts(ps);
        var k :| 0 <= k < |ps| && Fsts(ps)[k] == date;
        assert file[k + 1][0] == date;
      }
      if exists i :: 1 <= i < |file| && file[i][0] == date {
        var i :| 1 <= i < |file| && file[i][0] == date;
        assert Fsts(ps)[i - 1] == date;
      }
    }
  }

  /** Each date loaded holds the rest of the last row that carries it. */
  lemma LoadedValues(file: seq<seq<string>>)
    requires |file| > 0 && forall i :: 1 <= i < |file| ==> |file[i]| > 0
    ensures var d := FromPairs(RowAssignments(file[1..]));
      forall date :: date in d.entries ==> exists i :: LastRowWith(file, i, date) && d.entries[date] == file[i][1..]
  {
    var rows := file[1..];
    var ps := RowAssignments(rows);
    FromPairsSpec(ps);
    var d := FromPairs(ps);
    forall date | date in d.entries
      ensures exists i :: LastRowWith(file, i, date) && d.entries[date] == file[i][1..]
    {
      var k :| IsLast(ps, k, date) && d.entries[date] == ps[k].1;
      assert file[k + 1] == rows[k];
      forall j | k + 1 < j < |file| ensures file[j][0] != date {
        assert file[j] == rows[j - 1] && ps[j - 1].0 != date;
      }
      assert LastRowWith(file, k + 1, date);
    }
  }
}
