/**
 * convert_class and time_series: turning the joined rows, whose last cell is
 * a category label, into numbered classes, and shifting each row's label to
 * the next row's.
 */
module Labels {
  import opened Wrappers
  import opened OrderedDicts

  /** A cell of a joined row: a field as read from the CSV files, or a class number written over a label. */
  datatype Cell = Text(text: string) | Code(code: int)

  // ---------------------------------------------------------------- class numbering

  /** `classes` after reading `labels` in order: a label not seen before gets the next number, from 1. */
  function Classes(labels: seq<Cell>): (classes: Dict<Cell, int>)
    ensures classes.Valid()
  {
    if labels == [] then Empty()
    else
      var classes := Classes(labels[..|labels| - 1]);
      Numbered(classes, labels[|labels| - 1])
  }

  /** `classes` after reading one more label. */
  function Numbered(classes: Dict<Cell, int>, classLabel: Cell): (classes': Dict<Cell, int>)
    ensures classes.Valid() ==> classes'.Valid()
    ensures classLabel in classes'.entries
    ensures forall y :: y in classes.entries ==> y in classes'.entries && classes'.entries[y] == classes.entries[y]
  {
    if classLabel in classes.entries then classes else classes.Set(classLabel, |classes.keys| + 1)
  }

  /**
   * The classes are the distinct labels in first-seen order, numbered 1, 2,
   * ... in that order.
   */
  lemma {:induction false} ClassesNumbering(labels: seq<Cell>)
    ensures Classes(labels).Valid() && Classes(labels).keys == Dedup(labels)
    ensures forall j :: 0 <= j < |Classes(labels).keys| ==> Classes(labels).entries[Classes(labels).keys[j]] == j + 1
  {
    if labels != [] {
      var init, classLabel := labels[..|labels| - 1], labels[|labels| - 1];
      assert labels == init + [classLabel];
      ClassesNumbering(init);
      DedupAppend(init, classLabel);
      var before := Classes(init);
      assert Classes(labels) == Numbered(before, classLabel);
      if classLabel !in before.entries {
        var after := before.Set(classLabel, |before.keys| + 1);
        assert Classes(labels) == after;
        forall j | 0 <= j < |after.keys| ensures after.entries[after.keys[j]] == j + 1 {
          if j < |before.keys| {
            assert after.keys[j] == before.keys[j] && after.keys[j] != classLabel;
          }
        }
      }
    }
  }

  /** Different labels get different numbers, and the numbers are 1 to the number of labels. */
  lemma ClassesInjective(labels: seq<Cell>)
    ensures forall x :: x in Classes(labels).entries ==> 1 <= Classes(labels).entries[x] <= |Classes(labels).keys|
    ensures forall x, y :: x in Classes(labels).entries && y in Classes(labels).entries && x != y ==>
      Classes(labels).entries[x] != Classes(labels).entries[y]
  {
    var classes := Classes(labels);
    ClassesNumbering(labels);
    forall x | x in classes.entries
      ensures classes.entries[x] == FirstIndex(classes.keys, x) + 1
    {
    }
  }

  /** A label keeps the number it got when first read. */
  lemma {:induction false} ClassesStable(labels: seq<Cell>, more: seq<Cell>)
    ensures forall x :: x in Classes(labels).entries ==>
      x in Classes(labels + more).entries && Classes(labels + more).entries[x] == Classes(labels).entries[x]
  {
    if more == [] {
      assert labels + more == labels;
    } else {
      var init, last := more[..|more| - 1], more[|more| - 1];
      assert labels + more == (labels + init) + [last];
      ClassesStable(labels, init);
      ClassesGrow(labels + init, last);
    }
  }

  lemma ClassesGrow(labels: seq<Cell>, x: Cell)
    ensures forall y :: y in Classes(labels).entries ==>
      y in Classes(labels + [x]).entries && Classes(labels + [x]).entries[y] == Classes(labels).entries[y]
  {
    ClassesSnoc(labels, x);
  }

  /** Reading one more label. */
  lemma ClassesSnoc(labels: seq<Cell>, x: Cell)
    ensures Classes(labels + [x]) == Numbered(Classes(labels), x)
  {
    assert (labels + [x])[..|labels|] == labels;
  }

  // ---------------------------------------------------------------- convert_class

  /** A row of the joined dataset: a list object whose last cell convert_class overwrites in place. */
  class Row {
    var cells: seq<Cell>

    constructor (cells: seq<Cell>)
      ensures this.cells == cells
    {
      this.cells := cells;
    }
  }

  /** Rows are distinct list objects: writing one leaves the others as they were. */
  ghost predicate DistinctRows(rows: seq<Row>) {
    rows == [] || (DistinctRows(rows[..|rows| - 1]) && forall j :: 0 <= j < |rows| - 1 ==> rows[j] != rows[|rows| - 1])
  }

  /** Row i is none of the other rows. */
  lemma DistinctFrom(rows: seq<Row>, i: nat)
    requires DistinctRows(rows) && i < |rows|
    ensures forall j :: 0 <= j < |rows| && j != i ==> rows[j] != rows[i]
  {
    forall j | 0 <= j < |rows| && j != i
      ensures rows[j] != rows[i]
    {
      if j < i {
        DistinctRowsPair(rows, j, i);
      } else {
        DistinctRowsPair(rows, i, j);
      }
    }
  }

  /** Distinct rows, any two of them. */
  lemma {:induction false} DistinctRowsPair(rows: seq<Row>, i: nat, j: nat)
    requires DistinctRows(rows) && i < j < |rows|
    ensures rows[i] != rows[j]
  {
    if j < |rows| - 1 {
      DistinctRowsPair(rows[..|rows| - 1], i, j);
    }
  }

  /** The rows' current contents. */
  function Snapshot(rows: seq<Row>): (s: seq<seq<Cell>>)
    reads rows
    ensures |s| == |rows| && forall i :: 0 <= i < |rows| ==> s[i] == rows[i].cells
  {
    if rows == [] then [] else Snapshot(rows[..|rows| - 1]) + [rows[|rows| - 1].cells]
  }

  /** Contents that agree with every row are the snapshot. */
  lemma SnapshotIs(rows: seq<Row>, s: seq<seq<Cell>>)
    requires |s| == |rows| && forall j :: 0 <= j < |rows| ==> rows[j].cells == s[j]
    ensures Snapshot(rows) == s
  {
  }

  /** row[-1] = classes[row[-1]] */
  function Relabel(row: seq<Cell>, classes: Dict<Cell, int>): (r: seq<Cell>)
    requires |row| > 0 && row[|row| - 1] in classes.entries
    ensures |r| == |row| && r[|r| - 1] == Code(classes.entries[row[|row| - 1]])
    ensures forall i :: 0 <= i < |row| - 1 ==> r[i] == row[i]
  {
    row[|row| - 1 := Code(classes.entries[row[|row| - 1]])]
  }

  /**
   * convert_class's loop from row i on, with `classes` read so far: a row's
   * label is numbered if new and overwritten by its number; an empty row
   * raises IndexError, leaving the rows before it rewritten.
   */
  function ConvertFrom(rows: seq<seq<Cell>>, i: nat, classes: Dict<Cell, int>): (r: (Result<Dict<Cell, int>>, seq<seq<Cell>>))
    requires i <= |rows|
    ensures r.0.Err? ==> r.0.error == IndexError
    ensures |r.1| == |rows|
    decreases |rows| - i
  {
    if i == |rows| then (Ok(classes), rows)
    else if |rows[i]| == 0 then (Err(IndexError), rows)
    else
      var classes' := Numbered(classes, rows[i][|rows[i]| - 1]);
      ConvertFrom(rows[i := Relabel(rows[i], classes')], i + 1, classes')
  }

  /** What convert_class returns, and what it leaves in the rows. */
  function ConvertSpec(rows: seq<seq<Cell>>): (r: (Result<Dict<Cell, int>>, seq<seq<Cell>>))
    ensures r.0.Err? ==> r.0.error == IndexError
    ensures |r.1| == |rows|
  {
    ConvertFrom(rows, 0, Empty())
  }

  /**
   * convert_class(dataset). The returned list is a shallow copy: the same row
   * objects, which are rewritten in place, so the caller's rows change too.
   */
  method ConvertClass(dataset: seq<Row>) returns (r: Result<(Dict<Cell, int>, seq<Row>)>)
    requires DistinctRows(dataset)
    modifies dataset
    ensures Snapshot(dataset) == ConvertSpec(old(Snapshot(dataset))).1
    ensures r.Ok? <==> ConvertSpec(old(Snapshot(dataset))).0.Ok?
    ensures r.Ok? ==> r.value == (ConvertSpec(old(Snapshot(dataset))).0.value, dataset)
    ensures r.Err? ==> r.error == IndexError
  {
    ghost var rows := Snapshot(dataset);
    ghost var current := rows;
    var converted := dataset;
    var classes: Dict<Cell, int> := Empty();
    var classCount := 0;
    var i := 0;
    while i < |dataset|
      invariant i <= |dataset| == |current|
      invariant forall j :: 0 <= j < |dataset| ==> dataset[j].cells == current[j]
      invariant ConvertFrom(current, i, classes) == ConvertSpec(rows)
      invariant classCount == |classes.keys|
    {
      if |dataset[i].cells| == 0 {
        // dataset[i][-1] raises IndexError
        SnapshotIs(dataset, current);
        return Err(IndexError);
      }
      classes, classCount, current := ConvertRow(dataset, i, current, classes, classCount);
      i := i + 1;
    }
    SnapshotIs(dataset, current);
    return Ok((classes, converted));
  }

  /**
   * The loop body of convert_class for a non-empty row dataset[i]: number its
   * label if new, then write the number over it; no other row changes.
   */
  method ConvertRow(dataset: seq<Row>, i: nat, ghost current: seq<seq<Cell>>, classes: Dict<Cell, int>, classCount: int)
    returns (classes': Dict<Cell, int>, classCount': int, ghost current': seq<seq<Cell>>)
    requires DistinctRows(dataset) && i < |dataset| == |current|
    requires forall j :: 0 <= j < |dataset| ==> dataset[j].cells == current[j]
    requires |current[i]| > 0 && classCount == |classes.keys|
    modifies dataset[i]
    ensures classes' == Numbered(classes, current[i][|current[i]| - 1]) && classCount' == |classes'.keys|
    ensures current' == current[i := Relabel(current[i], classes')]
    ensures ConvertFrom(current', i + 1, classes') == ConvertFrom(current, i, classes)
    ensures forall j :: 0 <= j < |dataset| ==> dataset[j].cells == current'[j]
  {
    var row := dataset[i];
    var classLabel := row.cells[|row.cells| - 1];
    classes', classCount' := classes, classCount;
    if classLabel !in classes'.entries {
      classCount' := classCount' + 1;
      classes' := classes'.Set(classLabel, classCount');
    }
    row.cells := row.cells[|row.cells| - 1 := Code(classes'.entries[classLabel])];
    current' := current[i := Relabel(current[i], classes')];
    DistinctFrom(dataset, i);
  }

  // ---------------------------------------------------------------- what convert_class computes

  /** The index of the first empty row, or the number of rows when none is empty. */
  function FirstEmpty(rows: seq<seq<Cell>>): (k: nat)
    ensures k <= |rows|
    ensures forall i :: 0 <= i < k ==> |rows[i]| > 0
    ensures k < |rows| ==> |rows[k]| == 0
  {
    if rows == [] then 0
    else if |rows[0]| == 0 then 0
    else 1 + FirstEmpty(rows[1..])
  }

  /** The labels of rows 0 to k - 1, dataset[i][-1]. */
  function RowLabels(rows: seq<seq<Cell>>, k: nat): (labels: seq<Cell>)
    requires k <= |rows| && forall j :: 0 <= j < k ==> |rows[j]| > 0
    ensures |labels| == k && forall j :: 0 <= j < k ==> labels[j] == rows[j][|rows[j]| - 1]
  {
    if k == 0 then [] else RowLabels(rows, k - 1) + [rows[k - 1][|rows[k - 1]| - 1]]
  }

  /** The classes after reading the labels of rows 0 to k - 1 in order. */
  function RowClasses(rows: seq<seq<Cell>>, k: nat): (classes: Dict<Cell, int>)
    requires k <= |rows| && forall j :: 0 <= j < k ==> |rows[j]| > 0
  {
    if k == 0 then Empty() else Numbered(RowClasses(rows, k - 1), rows[k - 1][|rows[k - 1]| - 1])
  }

  /** Every label read has a number. */
  lemma {:induction false} RowClassesCover(rows: seq<seq<Cell>>, k: nat)
    requires k <= |rows| && forall j :: 0 <= j < k ==> |rows[j]| > 0
    ensures forall j :: 0 <= j < k ==> rows[j][|rows[j]| - 1] in RowClasses(rows, k).entries
  {
    if k > 0 {
      RowClassesCover(rows, k - 1);
    }
  }

  /** Reading the rows one by one numbers their labels as `Classes` numbers the sequence of labels. */
  lemma {:induction false} RowClassesAre(rows: seq<seq<Cell>>, k: nat)
    requires k <= |rows| && forall j :: 0 <= j < k ==> |rows[j]| > 0
    ensures RowClasses(rows, k) == Classes(RowLabels(rows, k))
  {
    if k > 0 {
      var labels, x := RowLabels(rows, k - 1), rows[k - 1][|rows[k - 1]| - 1];
      RowClassesAre(rows, k - 1);
      assert RowLabels(rows, k) == labels + [x];
      ClassesSnoc(labels, x);
    }
  }

  /** The rows with rows 0 to k - 1 relabeled, the others as they are. */
  function Relabeled(rows: seq<seq<Cell>>, k: nat, classes: Dict<Cell, int>): (r: seq<seq<Cell>>)
    requires k <= |rows| && forall j :: 0 <= j < k ==> |rows[j]| > 0 && rows[j][|rows[j]| - 1] in classes.entries
    ensures |r| == |rows|
    ensures forall j :: 0 <= j < k ==> r[j] == Relabel(rows[j], classes)
    ensures forall j :: k <= j < |rows| ==> r[j] == rows[j]
  {
    if k == 0 then rows else Relabeled(rows, k - 1, classes)[k - 1 := Relabel(rows[k - 1], classes)]
  }

  /** The rows and the classes once rows 0 to i - 1 are read and rewritten. */
  function Stage(rows: seq<seq<Cell>>, i: nat): (seq<seq<Cell>>, Dict<Cell, int>)
    requires i <= FirstEmpty(rows)
  {
    var classes := RowClasses(rows, i);
    RowClassesCover(rows, i);
    (Relabeled(rows, i, classes), classes)
  }

  /**
   * convert_class in closed form: the rows up to the first empty one get
   * their label replaced by its number under the numbering of all their
   * labels; the result is that numbering, or IndexError when a row is empty.
   */
  function ConvertClosed(rows: seq<seq<Cell>>): (Result<Dict<Cell, int>>, seq<seq<Cell>>) {
    var k := FirstEmpty(rows);
    var (converted, classes) := Stage(rows, k);
    (if k == |rows| then Ok(classes) else Err(IndexError), converted)
  }

  /** The loop, run from any stage, ends in the closed form. */
  lemma {:induction false} ConvertFromStage(rows: seq<seq<Cell>>, i: nat)
    requires i <= FirstEmpty(rows)
    ensures ConvertFrom(Stage(rows, i).0, i, Stage(rows, i).1) == ConvertClosed(rows)
    decreases |rows| - i
  {
    var (current, classes) := Stage(rows, i);
    if i < FirstEmpty(rows) {
      var (current', classes') := Stage(rows, i + 1);
      var classLabel := rows[i][|rows[i]| - 1];
      assert current[i] == rows[i];
      assert classes' == Numbered(classes, classLabel);
      RowClassesCover(rows, i);
      RelabeledStep(rows, i, classes, classes');
      assert ConvertFrom(current, i, classes) == ConvertFrom(current', i + 1, classes');
      ConvertFromStage(rows, i + 1);
    } else {
      assert i < |rows| ==> current[i] == rows[i];
    }
  }

  /** Rewriting row i under the grown classes extends the rewritten prefix by one row. */
  lemma RelabeledStep(rows: seq<seq<Cell>>, i: nat, prev: Dict<Cell, int>, classes: Dict<Cell, int>)
    requires i < |rows| && forall j :: 0 <= j <= i ==> |rows[j]| > 0
    requires forall j :: 0 <= j < i ==> rows[j][|rows[j]| - 1] in prev.entries
    requires rows[i][|rows[i]| - 1] in classes.entries
    requires forall y :: y in prev.entries ==> y in classes.entries && classes.entries[y] == prev.entries[y]
    ensures Relabeled(rows, i, prev)[i := Relabel(rows[i], classes)] == Relabeled(rows, i + 1, classes)
  {
    RelabelKept(rows, i, prev, classes);
    var r, r' := Relabeled(rows, i, prev)[i := Relabel(rows[i], classes)], Relabeled(rows, i + 1, classes);
    assert forall j :: 0 <= j < |rows| ==> r[j] == r'[j];
  }

  /** The rows already rewritten read the same under the grown classes. */
  lemma RelabelKept(rows: seq<seq<Cell>>, i: nat, prev: Dict<Cell, int>, classes: Dict<Cell, int>)
    requires i <= |rows| && forall j :: 0 <= j < i ==> |rows[j]| > 0 && rows[j][|rows[j]| - 1] in prev.entries
    requires forall y :: y in prev.entries ==> y in classes.entries && classes.entries[y] == prev.entries[y]
    ensures forall j :: 0 <= j < i ==> rows[j][|rows[j]| - 1] in classes.entries
    ensures forall j :: 0 <= j < i ==> Relabel(rows[j], prev) == Relabel(rows[j], classes)
  {
  }

  /** convert_class's loop computes the closed form. */
  lemma ConvertSpecClosed(rows: seq<seq<Cell>>)
    ensures ConvertSpec(rows) == ConvertClosed(rows)
  {
    assert Stage(rows, 0) == (rows, Empty());
    ConvertFromStage(rows, 0);
  }

  /**
   * The classes convert_class builds are the distinct labels of the rows
   * before the first empty one, in first-seen order, numbered from 1: a
   * row's label gets one more than the position of the label among them.
   */
  lemma ConvertClasses(rows: seq<seq<Cell>>)
    ensures var k := FirstEmpty(rows);
      var classes := RowClasses(rows, k);
      classes == Classes(RowLabels(rows, k)) && classes.Valid() && classes.keys == Dedup(RowLabels(rows, k)) &&
      forall j :: 0 <= j < k ==>
        (rows[j][|rows[j]| - 1] in classes.entries &&
         classes.entries[rows[j][|rows[j]| - 1]] == FirstIndex(classes.keys, rows[j][|rows[j]| - 1]) + 1)
  {
    var k := FirstEmpty(rows);
    var labels := RowLabels(rows, k);
    RowClassesAre(rows, k);
    RowClassesCover(rows, k);
    ClassesNumbering(labels);
    var classes := RowClasses(rows, k);
    forall j | 0 <= j < k
      ensures classes.entries[rows[j][|rows[j]| - 1]] == FirstIndex(classes.keys, rows[j][|rows[j]| - 1]) + 1
    {
      var x := rows[j][|rows[j]| - 1];
      assert classes.keys[FirstIndex(classes.keys, x)] == x;
    }
  }

  /**
   * What convert_class returns: the numbering of all the labels exactly when
   * no row is empty, IndexError otherwise.
   */
  lemma ConvertOutcome(rows: seq<seq<Cell>>)
    ensures ConvertSpec(rows).0.Ok? <==> forall j :: 0 <= j < |rows| ==> |rows[j]| > 0
    ensures ConvertSpec(rows).0.Err? ==> ConvertSpec(rows).0.error == IndexError
    ensures ConvertSpec(rows).0.Ok? ==> ConvertSpec(rows).0.value == Classes(RowLabels(rows, |rows|))
  {
    ConvertSpecClosed(rows);
    RowClassesAre(rows, FirstEmpty(rows));
  }

  /**
   * What convert_class leaves in the rows: the rows before the first empty
   * one keep every cell but the last, which becomes its label's number; the
   * rows from it on are untouched.
   */
  lemma ConvertRows(rows: seq<seq<Cell>>)
    ensures |ConvertSpec(rows).1| == |rows|
    ensures forall j :: FirstEmpty(rows) <= j < |rows| ==> ConvertSpec(rows).1[j] == rows[j]
    ensures forall j :: 0 <= j < FirstEmpty(rows) ==> rows[j][|rows[j]| - 1] in Classes(RowLabels(rows, FirstEmpty(rows))).entries
    ensures forall j :: 0 <= j < FirstEmpty(rows) ==>
      var row, row' := rows[j], ConvertSpec(rows).1[j];
      |row'| == |row| && row'[..|row| - 1] == row[..|row| - 1] &&
      row'[|row| - 1] == Code(Classes(RowLabels(rows, FirstEmpty(rows))).entries[row[|row| - 1]])
  {
    ConvertSpecClosed(rows);
    var k := FirstEmpty(rows);
    RowClassesAre(rows, k);
    RowClassesCover(rows, k);
    var converted, classes := ConvertSpec(rows).1, RowClasses(rows, k);
    assert converted == Relabeled(rows, k, classes);
    forall j | 0 <= j < k
      ensures converted[j][..|rows[j]| - 1] == rows[j][..|rows[j]| - 1]
    {
      assert converted[j] == Relabel(rows[j], classes);
    }
  }

  /**
   * With no empty row, convert_class succeeds with the numbering of all the
   * labels, and every row gets its label's number.
   */
  lemma ConvertComplete(rows: seq<seq<Cell>>)
    requires forall j :: 0 <= j < |rows| ==> |rows[j]| > 0
    ensures ConvertSpec(rows).0 == Ok(Classes(RowLabels(rows, |rows|)))
    ensures |ConvertSpec(rows).1| == |rows|
    ensures forall j :: 0 <= j < |rows| ==>
      var row, row', classes := rows[j], ConvertSpec(rows).1[j], Classes(RowLabels(rows, |rows|));
      row[|row| - 1] in classes.entries &&
      |row'| == |row| && row'[..|row| - 1] == row[..|row| - 1] && row'[|row| - 1] == Code(classes.entries[row[|row| - 1]])
  {
    ConvertOutcome(rows);
    ConvertRows(rows);
    assert FirstEmpty(rows) == |rows|;
  }

  // ---------------------------------------------------------------- time_series

  /**
   * time_series(dataset): every row but the last, with the NEXT row's label
   * appended; the next row must not be empty.
   */
  function TimeSeriesSpec<T>(dataset: seq<seq<T>>): (r: Result<seq<seq<T>>>)
    ensures r.Ok? <==> forall i :: 1 <= i < |dataset| ==> |dataset[i]| > 0
    ensures r.Err? ==> r.error == IndexError
    ensures r.Ok? ==> |r.value| == if |dataset| == 0 then 0 else |dataset| - 1
    ensures r.Ok? ==> forall i :: 0 <= i < |r.value| ==>
      r.value[i] == dataset[i] + [dataset[i + 1][|dataset[i + 1]| - 1]]
  {
    if exists i :: 1 <= i < |dataset| && |dataset[i]| == 0 then Err(IndexError)
    else
      var n := if |dataset| == 0 then 0 else |dataset| - 1;
      Ok(seq(n, i requires 0 <= i < n => dataset[i] + [dataset[i + 1][|dataset[i + 1]| - 1]]))
  }

  method TimeSeries<T>(dataset: seq<seq<T>>) returns (r: Result<seq<seq<T>>>)
    ensures r == TimeSeriesSpec(dataset)
  {
    var newDataset: seq<seq<T>> := [];
    var i := 0;
    while i < |dataset| - 1
      invariant 0 <= i <= if |dataset| == 0 then 0 else |dataset| - 1
      invariant forall j :: 1 <= j <= i ==> |dataset[j]| > 0
      invariant |newDataset| == i
      invariant forall j :: 0 <= j < i ==> newDataset[j] == dataset[j] + [dataset[j + 1][|dataset[j + 1]| - 1]]
    {
      var next := dataset[i + 1];
      if |next| == 0 {
        assert 1 <= i + 1 < |dataset| && |dataset[i + 1]| == 0;
        return Err(IndexError);
      }
      newDataset := newDataset + [dataset[i] + [next[|next| - 1]]];
      i := i + 1;
    }
    assert forall j :: 1 <= j < |dataset| ==> |dataset[j]| > 0;
    assert newDataset == TimeSeriesSpec(dataset).value;
    return Ok(newDataset);
  }
}
