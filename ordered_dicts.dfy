/**
 * Python's insertion-ordered dict: the keys in the order they were first
 * assigned, plus the mapping itself. Assigning to a key that is already
 * present replaces its value and keeps its position.
 */
module OrderedDicts {

  ghost predicate Distinct<K>(s: seq<K>) {
    forall i, j :: 0 <= i < j < |s| ==> s[i] != s[j]
  }

  datatype Dict<K(==,!new), V> = Dict(keys: seq<K>, entries: map<K, V>) {

    ghost predicate Valid() {
      Distinct(keys) && forall k :: k in keys <==> k in entries
    }

    /** d[k] = v */
    function Set(k: K, v: V): (d: Dict<K, V>)
      ensures d.entries == entries[k := v]
      ensures k in entries ==> d.keys == keys
      ensures k !in entries ==> d.keys == keys + [k]
    {
      if k in entries then Dict(keys, entries[k := v]) else Dict(keys + [k], entries[k := v])
    }

    /** Assignment keeps the keys distinct and in step with the entries. */
    lemma SetValid(k: K, v: V)
      requires Valid()
      ensures Set(k, v).Valid()
    {
    }

    /** d.items(), in iteration order. */
    function Items(): (items: seq<(K, V)>)
      requires Valid()
      ensures |items| == |keys|
      ensures forall i :: 0 <= i < |keys| ==> items[i] == (keys[i], entries[keys[i]])
    {
      seq(|keys|, i requires 0 <= i < |keys| => (keys[i], entries[keys[i]]))
    }
  }

  /** {} */
  function Empty<K(==,!new), V>(): (d: Dict<K, V>)
    ensures d.Valid() && d.keys == [] && d.entries == map[]
  {
    Dict([], map[])
  }

  /** Index of the first occurrence of x in s. */
  function FirstIndex<K(==,!new)>(s: seq<K>, x: K): (i: nat)
    requires x in s
    ensures i < |s| && s[i] == x && x !in s[..i]
  {
    if s[0] == x then 0
    else
      var i := 1 + FirstIndex(s[1..], x);
      assert s[..i] == [s[0]] + s[1..][..i - 1];
      i
  }

  /** The elements of s, each at the position of its first occurrence. */
  function Dedup<K(==,!new)>(s: seq<K>): (d: seq<K>)
    ensures Distinct(d)
    ensures forall x :: x in d <==> x in s
    ensures |d| <= |s|
  {
    if s == [] then []
    else
      var x := s[|s| - 1];
      var d := Dedup(s[..|s| - 1]);
      assert s == s[..|s| - 1] + [x];
      if x in s[..|s| - 1] then d else d + [x]
  }

  lemma DedupAppend<K(!new)>(s: seq<K>, x: K)
    ensures Dedup(s + [x]) == if x in s then Dedup(s) else Dedup(s) + [x]
  {
    assert (s + [x])[..|s|] == s;
  }

  /** A sequence without repeats is its own Dedup. */
  lemma {:induction false} DedupDistinct<K(!new)>(s: seq<K>)
    requires Distinct(s)
    ensures Dedup(s) == s
  {
    if s != [] {
      var init, x := s[..|s| - 1], s[|s| - 1];
      assert s == init + [x];
      assert x !in init;
      DedupDistinct(init);
      DedupAppend(init, x);
    }
  }

  /** Dedup keeps first-seen order: earlier elements first occurred earlier. */
  lemma {:induction false} DedupOrder<K(!new)>(s: seq<K>)
    ensures forall i, j :: 0 <= i < j < |Dedup(s)| ==>
      FirstIndex(s, Dedup(s)[i]) < FirstIndex(s, Dedup(s)[j])
  {
    if s != [] {
      var init, x := s[..|s| - 1], s[|s| - 1];
      assert s == init + [x];
      DedupOrder(init);
      var d := Dedup(s);
      forall i, j | 0 <= i < j < |d|
        ensures FirstIndex(s, d[i]) < FirstIndex(s, d[j])
      {
        FirstIndexExtend(init, x, d[i]);
        if x in init || j < |Dedup(init)| {
          FirstIndexExtend(init, x, d[j]);
        } else {
          assert d[j] == x && x !in init;
          FirstIndexNew(init, x);
        }
      }
    }
  }

  lemma FirstIndexExtend<K(!new)>(s: seq<K>, x: K, y: K)
    requires y in s
    ensures FirstIndex(s + [x], y) == FirstIndex(s, y)
  {
    var i := FirstIndex(s, y);
    var j := FirstIndex(s + [x], y);
    assert (s + [x])[i] == y;
    assert s[..i] == (s + [x])[..i];
  }

  lemma FirstIndexNew<K(!new)>(s: seq<K>, x: K)
    requires x !in s
    ensures FirstIndex(s + [x], x) == |s|
  {
    var j := FirstIndex(s + [x], x);
  }

  /** The keys of a sequence of (key, value) pairs. */
  function Fsts<K, V>(ps: seq<(K, V)>): (ks: seq<K>)
    ensures |ks| == |ps| && forall i :: 0 <= i < |ps| ==> ks[i] == ps[i].0
  {
    seq(|ps|, i requires 0 <= i < |ps| => ps[i].0)
  }

  /** The dict left by assigning d[k] = v for every pair (k, v) of ps, in order, to {}. */
  function FromPairs<K(==,!new), V>(ps: seq<(K, V)>): Dict<K, V> {
    if ps == [] then Empty() else FromPairs(ps[..|ps| - 1]).Set(ps[|ps| - 1].0, ps[|ps| - 1].1)
  }

  /** Assigning pair after pair keeps a dict well-formed. */
  lemma {:induction false} FromPairsValid<K(!new), V>(ps: seq<(K, V)>)
    ensures FromPairs(ps).Valid()
  {
    if ps != [] {
      FromPairsValid(ps[..|ps| - 1]);
      FromPairs(ps[..|ps| - 1]).SetValid(ps[|ps| - 1].0, ps[|ps| - 1].1);
    }
  }

  lemma FromPairsAppend<K(!new), V>(ps: seq<(K, V)>, k: K, v: V)
    ensures FromPairs(ps + [(k, v)]) == FromPairs(ps).Set(k, v)
  {
    assert (ps + [(k, v)])[..|ps|] == ps;
  }

  /** Pair i is the last one of ps whose key is k. */
  ghost predicate IsLast<K, V>(ps: seq<(K, V)>, i: int, k: K) {
    0 <= i < |ps| && ps[i].0 == k && forall j :: i < j < |ps| ==> ps[j].0 != k
  }

  /**
   * The keys of FromPairs(ps) are the keys of ps in first-seen order, and each
   * maps to the value of the LAST pair that carries it.
   */
  lemma FromPairsSpec<K(!new), V>(ps: seq<(K, V)>)
    ensures FromPairs(ps).keys == Dedup(Fsts(ps))
    ensures forall k :: k in FromPairs(ps).entries <==> k in Fsts(ps)
    ensures forall k :: k in FromPairs(ps).entries ==>
      exists i :: IsLast(ps, i, k) && FromPairs(ps).entries[k] == ps[i].1
  {
    FromPairsKeys(ps);
    FromPairsValues(ps);
  }

  lemma {:induction false} FromPairsKeys<K(!new), V>(ps: seq<(K, V)>)
    ensures FromPairs(ps).keys == Dedup(Fsts(ps))
    ensures forall k :: k in FromPairs(ps).entries <==> k in Fsts(ps)
  {
    if ps != [] {
      var init, p := ps[..|ps| - 1], ps[|ps| - 1];
      assert ps == init + [p];
      assert Fsts(ps) == Fsts(init) + [p.0];
      FromPairsKeys(init);
      DedupAppend(Fsts(init), p.0);
    }
  }

  lemma {:induction false} FromPairsValues<K(!new), V>(ps: seq<(K, V)>)
    ensures forall k :: k in FromPairs(ps).entries ==>
      exists i :: IsLast(ps, i, k) && FromPairs(ps).entries[k] == ps[i].1
  {
    if ps != [] {
      var init, p := ps[..|ps| - 1], ps[|ps| - 1];
      FromPairsValues(init);
      var d := FromPairs(ps);
      forall k | k in d.entries
        ensures exists i :: IsLast(ps, i, k) && d.entries[k] == ps[i].1
      {
        if k == p.0 {
          assert IsLast(ps, |ps| - 1, k);
        } else {
          assert d.entries == FromPairs(init).entries[p.0 := p.1];
          assert k in FromPairs(init).entries;
          var i :| IsLast(init, i, k) && FromPairs(init).entries[k] == init[i].1;
          assert IsLast(ps, i, k);
        }
      }
    }
  }

  /** A sequence of distinct elements has as many elements as its set. */
  lemma {:induction false} DistinctCard<K>(s: seq<K>)
    requires Distinct(s)
    ensures |set x | x in s| == |s|
  {
    if s != [] {
      var init := s[..|s| - 1];
      assert s == init + [s[|s| - 1]];
      DistinctCard(init);
      assert (set x | x in s) == (set x | x in init) + {s[|s| - 1]};
    }
  }

  lemma {:induction false} SubsetCard<K>(a: set<K>, b: set<K>)
    requires a <= b
    ensures |a| <= |b|
  {
    if a != {} {
      var x :| x in a;
      SubsetCard(a - {x}, b - {x});
    }
  }

  /** A dict has exactly as many keys as entries. */
  lemma DictCard<K(!new), V>(d: Dict<K, V>)
    requires d.Valid()
    ensures |d.entries| == |d.keys|
  {
    DistinctCard(d.keys);
    assert (set x | x in d.keys) == d.entries.Keys;
  }
}
