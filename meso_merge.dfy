/**
 * create_meso_dataset's merge: the per-station daily records are combined
 * into one record per date, the element-wise mean of the records every
 * station has for that date.
 */
module MesoMerge {
  import opened OrderedDicts
  import opened Vectors

  type Record = seq<real>
  type Item = (string, Record)

  /** The (date, record) pairs in the order the merge visits them: station by station, each in its own order. */
  function Stream(datasets: seq<Dict<string, Record>>): seq<Item>
    requires forall i :: 0 <= i < |datasets| ==> datasets[i].Valid()
  {
    if datasets == [] then []
    else Stream(datasets[..|datasets| - 1]) + datasets[|datasets| - 1].Items()
  }

  /** The records visited for date d, in visiting order. */
  function ValuesFor(items: seq<Item>, d: string): (vs: seq<Record>)
    ensures |vs| > 0 <==> d in Fsts(items)
  {
    if items == [] then []
    else
      var init, last := items[..|items| - 1], items[|items| - 1];
      assert Fsts(items) == Fsts(init) + [last.0];
      ValuesFor(init, d) + if last.0 == d then [last.1] else []
  }

  /** The element-wise mean of a non-empty list of records (truncated to the shortest). */
  function Mean(vs: seq<Record>): (m: Record)
    requires |vs| > 0
    ensures forall k :: 0 <= k < |vs| ==> |m| <= |vs[k]|
    ensures (forall k :: 0 <= k < |vs| ==> |vs[k]| == |vs[0]|) ==> |m| == |vs[0]|
  {
    DivVec(SumVecs(vs), |vs| as real)
  }

  /** What the merge builds: every date seen, in first-seen order, mapped to the mean of its records. */
  function MergeSpec(datasets: seq<Dict<string, Record>>): (merged: Dict<string, Record>)
    requires forall i :: 0 <= i < |datasets| ==> datasets[i].Valid()
    ensures merged.Valid()
  {
    var items := Stream(datasets);
    Dict(Dedup(Fsts(items)), map d | d in Fsts(items) :: Mean(ValuesFor(items, d)))
  }

  // ---------------------------------------------------------------- the merge loops

  /** processed_data after visiting `seen`: a seen date's record is added in, a new date's is stored. */
  function Accumulated(seen: seq<Item>): Dict<string, Record> {
    if seen == [] then Empty()
    else
      var d := Accumulated(seen[..|seen| - 1]);
      var (date, data) := seen[|seen| - 1];
      d.Set(date, if date in d.entries then AddVec(d.entries[date], data) else data)
  }

  /** merge_count after visiting `seen`: a seen date's count is raised, a new date's starts at 1. */
  function Counts(seen: seq<Item>): map<string, int> {
    if seen == [] then map[]
    else
      var c := Counts(seen[..|seen| - 1]);
      var date := seen[|seen| - 1].0;
      c[date := if date in c then c[date] + 1 else 1]
  }

  method MergeDatasets(datasets: seq<Dict<string, Record>>) returns (merged: Dict<string, Record>)
    requires forall i :: 0 <= i < |datasets| ==> datasets[i].Valid()
    ensures merged == MergeSpec(datasets)
  {
    var mergeCount: map<string, int> := map[];
    var processed: Dict<string, Record> := Empty();
    ghost var seen: seq<Item> := [];
    EmptyStream(datasets);
    var i := 0;
    while i < |datasets|
      invariant 0 <= i <= |datasets|
      invariant seen == Stream(datasets[..i])
      invariant processed == Accumulated(seen) && mergeCount == Counts(seen)
    {
      var items := datasets[i].Items();
      processed, mergeCount := MergeStation(items, processed, mergeCount, seen);
      seen := seen + items;
      StreamStep(datasets, i);
      i := i + 1;
    }
    assert datasets[..i] == datasets;

    AccumulatedKeys(seen);
    AccumulatedValues(seen);
    CountsValues(seen);
    AccumulatedValid(seen);
    merged := DivideByCounts(processed, mergeCount);
    MergedEntries(datasets, seen, merged);
  }

  /** The inner loop over one station's items: add each reading to its date's sum and count it. */
  method MergeStation(items: seq<Item>, processed: Dict<string, Record>, mergeCount: map<string, int>, ghost seen: seq<Item>)
    returns (processed': Dict<string, Record>, mergeCount': map<string, int>)
    requires processed == Accumulated(seen) && mergeCount == Counts(seen)
    ensures processed' == Accumulated(seen + items) && mergeCount' == Counts(seen + items)
  {
    processed', mergeCount' := processed, mergeCount;
    ghost var visited := seen;
    var j := 0;
    assert items[..0] == [];
    while j < |items|
      invariant 0 <= j <= |items|
      invariant visited == seen + items[..j]
      invariant processed' == Accumulated(visited) && mergeCount' == Counts(visited)
    {
      var item := items[j];
      var date, data := item.0, item.1;
      VisitStep(visited, item);
      CountsKeys(visited);
      if date in mergeCount' {
        processed' := processed'.Set(date, AddVec(processed'.entries[date], data));
        mergeCount' := mergeCount'[date := mergeCount'[date] + 1];
      } else {
        mergeCount' := mergeCount'[date := 1];
        processed' := processed'.Set(date, data);
      }
      PrefixStep(seen, items, j);
      visited := visited + [item];
      j := j + 1;
    }
    assert items[..j] == items;
  }

  /** The closing loop: every date's sum divided by its count, in place, keeping the order of dates. */
  method DivideByCounts(sums: Dict<string, Record>, counts: map<string, int>) returns (means: Dict<string, Record>)
    requires sums.Valid()
    requires forall d :: d in sums.entries ==> d in counts && counts[d] != 0
    ensures means.Valid() && means.keys == sums.keys
    ensures forall d :: d in means.entries <==> d in sums.entries
    ensures forall d :: d in sums.entries ==> means.entries[d] == DivVec(sums.entries[d], counts[d] as real)
  {
    means := sums;
    var keys := sums.keys;
    var k := 0;
    while k < |keys|
      invariant 0 <= k <= |keys|
      invariant means.Valid() && means.keys == keys
      invariant means.entries.Keys == sums.entries.Keys
      invariant forall m :: 0 <= m < k ==> means.entries[keys[m]] == DivVec(sums.entries[keys[m]], counts[keys[m]] as real)
      invariant forall m :: k <= m < |keys| ==> means.entries[keys[m]] == sums.entries[keys[m]]
    {
      var date := keys[k];
      var data := means.entries[date];
      means := means.Set(date, DivVec(data, counts[date] as real));
      k := k + 1;
    }
    forall d | d in sums.entries
      ensures means.entries[d] == DivVec(sums.entries[d], counts[d] as real)
    {
      var m := FirstIndex(keys, d);
    }
  }

  lemma EmptyStream(datasets: seq<Dict<string, Record>>)
    requires forall i :: 0 <= i < |datasets| ==> datasets[i].Valid()
    ensures Stream(datasets[..0]) == []
  {
    assert datasets[..0] == [];
  }

  lemma StreamStep(datasets: seq<Dict<string, Record>>, i: nat)
    requires i < |datasets|
    requires forall i :: 0 <= i < |datasets| ==> datasets[i].Valid()
    ensures Stream(datasets[..i + 1]) == Stream(datasets[..i]) + datasets[i].Items()
  {
    assert datasets[..i + 1][..i] == datasets[..i];
  }

  lemma PrefixStep<T>(before: seq<T>, items: seq<T>, j: nat)
    requires j < |items|
    ensures before + items[..j] + [items[j]] == before + items[..j + 1]
  {
    assert items[..j + 1] == items[..j] + [items[j]];
  }

  lemma ValuesForAppend(seen: seq<Item>, date: string, data: Record, k: string)
    ensures k != date ==> ValuesFor(seen + [(date, data)], k) == ValuesFor(seen, k)
    ensures k == date ==> ValuesFor(seen + [(date, data)], k) == ValuesFor(seen, k) + [data]
  {
    assert (seen + [(date, data)])[..|seen|] == seen;
  }

  lemma VisitStep(seen: seq<Item>, item: Item)
    ensures Fsts(seen + [item]) == Fsts(seen) + [item.0]
    ensures item.0 in Accumulated(seen).entries ==>
      Accumulated(seen + [item]) == Accumulated(seen).Set(item.0, AddVec(Accumulated(seen).entries[item.0], item.1))
    ensures item.0 !in Accumulated(seen).entries ==> Accumulated(seen + [item]) == Accumulated(seen).Set(item.0, item.1)
    ensures item.0 in Counts(seen) ==> Counts(seen + [item]) == Counts(seen)[item.0 := Counts(seen)[item.0] + 1]
    ensures item.0 !in Counts(seen) ==> Counts(seen + [item]) == Counts(seen)[item.0 := 1]
  {
    assert (seen + [item])[..|seen|] == seen;
  }

  /** processed_data stays a well-formed dict. */
  lemma {:induction false} AccumulatedValid(seen: seq<Item>)
    ensures Accumulated(seen).Valid()
  {
    if seen != [] {
      var init := seen[..|seen| - 1];
      AccumulatedValid(init);
      Accumulated(init).SetValid(seen[|seen| - 1].0,
        if seen[|seen| - 1].0 in Accumulated(init).entries then AddVec(Accumulated(init).entries[seen[|seen| - 1].0], seen[|seen| - 1].1) else seen[|seen| - 1].1);
    }
  }

  /** merge_count and processed_data have the same dates. */
  lemma {:induction false} CountsKeys(seen: seq<Item>)
    ensures Counts(seen).Keys == Accumulated(seen).entries.Keys
  {
    if seen != [] {
      CountsKeys(seen[..|seen| - 1]);
    }
  }

  /** processed_data's dates are the dates seen, in first-seen order. */
  lemma {:induction false} AccumulatedKeys(seen: seq<Item>)
    ensures Accumulated(seen).keys == Dedup(Fsts(seen))
    ensures forall k :: k in Accumulated(seen).entries <==> k in Fsts(seen)
  {
    if seen != [] {
      var init, item := seen[..|seen| - 1], seen[|seen| - 1];
      assert seen == init + [item];
      AccumulatedKeys(init);
      VisitStep(init, item);
      DedupAppend(Fsts(init), item.0);
    }
  }

  /** processed_data holds, for each date seen, the running sum of its records. */
  lemma {:induction false} AccumulatedValues(seen: seq<Item>)
    ensures forall k :: k in Fsts(seen) ==> k in Accumulated(seen).entries && Accumulated(seen).entries[k] == SumVecs(ValuesFor(seen, k))
  {
    if seen != [] {
      var init, item := seen[..|seen| - 1], seen[|seen| - 1];
      assert seen == init + [item];
      AccumulatedValues(init);
      AccumulatedKeys(init);
      forall k | k in Fsts(seen)
        ensures k in Accumulated(seen).entries && Accumulated(seen).entries[k] == SumVecs(ValuesFor(seen, k))
      {
        AccumulatedStep(init, item, k);
      }
    }
  }

  /** One more record: the sum of its date grows by it, the other dates' sums stay. */
  lemma AccumulatedStep(init: seq<Item>, item: Item, k: string)
    requires forall k :: k in Accumulated(init).entries <==> k in Fsts(init)
    requires k in Fsts(init) ==> Accumulated(init).entries[k] == SumVecs(ValuesFor(init, k))
    requires k in Fsts(init + [item])
    ensures k in Accumulated(init + [item]).entries && Accumulated(init + [item]).entries[k] == SumVecs(ValuesFor(init + [item], k))
  {
    VisitStep(init, item);
    ValuesForAppend(init, item.0, item.1, k);
    if k == item.0 {
      var vs := ValuesFor(init, k);
      if k in Fsts(init) {
        assert (vs + [item.1])[..|vs|] == vs;
      } else {
        assert vs + [item.1] == [item.1];
      }
    }
  }

  /** merge_count holds, for each date seen, the number of its records. */
  lemma {:induction false} CountsValues(seen: seq<Item>)
    ensures forall k :: k in Counts(seen) <==> k in Fsts(seen)
    ensures forall k :: k in Fsts(seen) ==> Counts(seen)[k] == |ValuesFor(seen, k)|
  {
    if seen != [] {
      var init, item := seen[..|seen| - 1], seen[|seen| - 1];
      assert seen == init + [item];
      CountsValues(init);
      VisitStep(init, item);
      forall k | k in Fsts(seen)
        ensures Counts(seen)[k] == |ValuesFor(seen, k)|
      {
        ValuesForAppend(init, item.0, item.1, k);
      }
    }
  }

  /** After the dividing loop, each entry is the mean, so the result is MergeSpec's. */
  lemma MergedEntries(datasets: seq<Dict<string, Record>>, seen: seq<Item>, merged: Dict<string, Record>)
    requires forall i :: 0 <= i < |datasets| ==> datasets[i].Valid()
    requires seen == Stream(datasets)
    requires merged.Valid() && merged.keys == Dedup(Fsts(seen))
    requires forall d :: d in Fsts(seen) ==> merged.entries[d] == Mean(ValuesFor(seen, d))
    ensures merged == MergeSpec(datasets)
  {
  }

  // ---------------------------------------------------------------- properties

  /** Reference: date d's records, one from each station file that has d, in file order. */
  function ValuesIn(datasets: seq<Dict<string, Record>>, d: string): (vs: seq<Record>)
    ensures |vs| > 0 <==> exists i :: 0 <= i < |datasets| && d in datasets[i].entries
  {
    if datasets == [] then []
    else
      var init, last := datasets[..|datasets| - 1], datasets[|datasets| - 1];
      assert forall i :: 0 <= i < |init| ==> init[i] == datasets[i];
      ValuesIn(init, d) + if d in last.entries then [last.entries[d]] else []
  }

  lemma {:induction false} ValuesForConcat(a: seq<Item>, b: seq<Item>, d: string)
    ensures ValuesFor(a + b, d) == ValuesFor(a, d) + ValuesFor(b, d)
  {
    if b == [] {
      assert a + b == a;
    } else {
      var init, last := b[..|b| - 1], b[|b| - 1];
      var tail := if last.0 == d then [last.1] else [];
      ValuesForConcat(a, init, d);
      UnfoldConcat(a, b, d);
      assert ValuesFor(b, d) == ValuesFor(init, d) + tail;
      AppendAssoc(ValuesFor(a, d), ValuesFor(init, d), tail);
    }
  }

  lemma AppendAssoc<T>(x: seq<T>, y: seq<T>, z: seq<T>)
    ensures (x + y) + z == x + (y + z)
  {
  }

  /** ValuesFor of a + b, unfolded at the last element of b. */
  lemma UnfoldConcat(a: seq<Item>, b: seq<Item>, d: string)
    requires b != []
    ensures ValuesFor(a + b, d) == ValuesFor(a + b[..|b| - 1], d) + if b[|b| - 1].0 == d then [b[|b| - 1].1] else []
  {
    DropLastAppend(a, b);
  }

  lemma DropLastAppend<T>(a: seq<T>, b: seq<T>)
    requires b != []
    ensures (a + b)[..|a + b| - 1] == a + b[..|b| - 1]
  {
  }

  /** In a list of pairs whose keys do not repeat, a key's only value is that of its one pair. */
  lemma {:induction false} ValuesForDistinct(ps: seq<Item>, d: string)
    requires Distinct(Fsts(ps))
    ensures d !in Fsts(ps) ==> ValuesFor(ps, d) == []
    ensures forall i :: 0 <= i < |ps| && ps[i].0 == d ==> ValuesFor(ps, d) == [ps[i].1]
  {
    if ps != [] {
      var init, x := ps[..|ps| - 1], ps[|ps| - 1];
      assert Fsts(init) == Fsts(ps)[..|ps| - 1];
      ValuesForDistinct(init, d);
      if x.0 == d {
        assert d !in Fsts(init);
      }
    }
  }

  lemma ValuesForItems(dataset: Dict<string, Record>, d: string)
    requires dataset.Valid()
    ensures ValuesFor(dataset.Items(), d) == if d in dataset.entries then [dataset.entries[d]] else []
  {
    var items := dataset.Items();
    assert Fsts(items) == dataset.keys;
    ValuesForDistinct(items, d);
    if d in dataset.entries {
      var i := FirstIndex(dataset.keys, d);
      assert items[i].0 == d;
    }
  }

  /** The records the merge visits for d are those of the station files that have d, in file order. */
  lemma {:induction false} StreamValues(datasets: seq<Dict<string, Record>>, d: string)
    requires forall i :: 0 <= i < |datasets| ==> datasets[i].Valid()
    ensures ValuesFor(Stream(datasets), d) == ValuesIn(datasets, d)
  {
    if datasets != [] {
      var init, last := datasets[..|datasets| - 1], datasets[|datasets| - 1];
      StreamValues(init, d);
      ValuesForConcat(Stream(init), last.Items(), d);
      ValuesForItems(last, d);
    }
  }

  /**
   * The merged dates are those of any station file, and each maps to the
   * mean of the records of the files that have it.
   */
  lemma MergedValues(datasets: seq<Dict<string, Record>>, d: string)
    requires forall i :: 0 <= i < |datasets| ==> datasets[i].Valid()
    ensures d in MergeSpec(datasets).entries <==> exists i :: 0 <= i < |datasets| && d in datasets[i].entries
    ensures d in MergeSpec(datasets).entries ==> MergeSpec(datasets).entries[d] == Mean(ValuesIn(datasets, d))
  {
    StreamValues(datasets, d);
  }

  /** The station files that have date d. */
  function Holders(datasets: seq<Dict<string, Record>>, d: string): set<nat> {
    set i: nat | i < |datasets| && d in datasets[i].entries
  }

  /** There is one record of d for each station file that has it. */
  lemma {:induction false} ValuesInCount(datasets: seq<Dict<string, Record>>, d: string)
    ensures |ValuesIn(datasets, d)| == |Holders(datasets, d)|
  {
    if datasets != [] {
      ValuesInCount(datasets[..|datasets| - 1], d);
      HoldersStep(datasets, d);
    }
  }

  /** The holders among all files: those among the earlier files, and the last file if it has d. */
  lemma HoldersStep(datasets: seq<Dict<string, Record>>, d: string)
    requires datasets != []
    ensures var n := |datasets| - 1;
      |Holders(datasets, d)| == |Holders(datasets[..n], d)| + if d in datasets[n].entries then 1 else 0
  {
    var n := |datasets| - 1;
    var before := Holders(datasets[..n], d);
    assert forall i :: 0 <= i < n ==> datasets[..n][i] == datasets[i];
    assert n !in before;
    if d in datasets[n].entries {
      assert Holders(datasets, d) == before + {n};
    } else {
      assert Holders(datasets, d) == before;
    }
  }

  /**
   * merge_count once every station file is visited: it counts exactly the
   * dates of the files, each by the number of files that have it.
   */
  lemma MergeCount(datasets: seq<Dict<string, Record>>, d: string)
    requires forall i :: 0 <= i < |datasets| ==> datasets[i].Valid()
    ensures d in Counts(Stream(datasets)) <==> exists i :: 0 <= i < |datasets| && d in datasets[i].entries
    ensures d in Counts(Stream(datasets)) ==> Counts(Stream(datasets))[d] == |Holders(datasets, d)|
  {
    CountsValues(Stream(datasets));
    StreamValues(datasets, d);
    ValuesInCount(datasets, d);
  }

  /** A date only one station file has passes through unchanged. */
  lemma PassThrough(datasets: seq<Dict<string, Record>>, i: nat, d: string)
    requires forall i :: 0 <= i < |datasets| ==> datasets[i].Valid()
    requires i < |datasets| && d in datasets[i].entries
    requires forall j :: 0 <= j < |datasets| && j != i ==> d !in datasets[j].entries
    ensures d in MergeSpec(datasets).entries && MergeSpec(datasets).entries[d] == datasets[i].entries[d]
  {
    MergedValues(datasets, d);
    OnlyOne(datasets, i, d);
    DivByOne(datasets[i].entries[d]);
  }

  lemma {:induction false} OnlyOne(datasets: seq<Dict<string, Record>>, i: nat, d: string)
    requires i < |datasets| && d in datasets[i].entries
    requires forall j :: 0 <= j < |datasets| && j != i ==> d !in datasets[j].entries
    ensures ValuesIn(datasets, d) == [datasets[i].entries[d]]
  {
    var init := datasets[..|datasets| - 1];
    if i < |datasets| - 1 {
      OnlyOne(init, i, d);
    } else {
      assert ValuesIn(init, d) == [];
    }
  }

  /** A date two station files share gets the element-wise mean of their two records. */
  lemma TwoStations(a: Dict<string, Record>, b: Dict<string, Record>, d: string)
    requires a.Valid() && b.Valid()
    requires d in a.entries && d in b.entries
    ensures d in MergeSpec([a, b]).entries
    ensures MergeSpec([a, b]).entries[d] == DivVec(AddVec(a.entries[d], b.entries[d]), 2.0)
  {
    MergedValues([a, b], d);
    var x, y := a.entries[d], b.entries[d];
    BothValues(a, b, d);
    assert [x, y][..1] == [x];
    assert SumVecs([x, y]) == AddVec(x, y);
  }

  lemma BothValues(a: Dict<string, Record>, b: Dict<string, Record>, d: string)
    requires d in a.entries && d in b.entries
    ensures ValuesIn([a, b], d) == [a.entries[d], b.entries[d]]
  {
    assert [a, b][..1] == [a];
    assert [a][..0] == [];
    assert ValuesIn([a], d) == [a.entries[d]];
  }

  /** Merging a single station file gives that file back. */
  lemma SingleStation(dataset: Dict<string, Record>)
    requires dataset.Valid()
    ensures MergeSpec([dataset]) == dataset
  {
    var merged := MergeSpec([dataset]);
    forall d | d in dataset.entries
      ensures d in merged.entries && merged.entries[d] == dataset.entries[d]
    {
      PassThrough([dataset], 0, d);
    }
    SingleKeys(dataset);
    MapEqual(merged.entries, dataset.entries);
  }

  /** One station file's dates, in its own order. */
  lemma SingleKeys(dataset: Dict<string, Record>)
    requires dataset.Valid()
    ensures MergeSpec([dataset]).keys == dataset.keys
  {
    assert [dataset][..0] == [];
    assert Stream([dataset]) == dataset.Items();
    assert Fsts(dataset.Items()) == dataset.keys;
    DedupDistinct(dataset.keys);
  }

  lemma MapEqual<K, V>(m: map<K, V>, m': map<K, V>)
    requires m.Keys == m'.Keys && forall k :: k in m ==> m[k] == m'[k]
    ensures m == m'
  {
  }
}
