/** str.split(sep, maxsplit) for a one-character separator. */
module TextSplit {
  import opened Vectors
  import opened OrderedDicts

  function Occurrences(s: string, c: char): nat {
    if s == [] then 0 else (if s[0] == c then 1 else 0) + Occurrences(s[1..], c)
  }

  /** sep.join(parts) */
  function JoinWith(parts: seq<string>, sep: char): string
    requires |parts| > 0
  {
    if |parts| == 1 then parts[0] else parts[0] + [sep] + JoinWith(parts[1..], sep)
  }

  /** s.split(sep, maxsplit): cut at the first maxsplit occurrences of sep. */
  function Split(s: string, sep: char, maxsplit: nat): (parts: seq<string>)
    ensures |parts| > 0
    decreases |s|
  {
    if sep !in s || maxsplit == 0 then [s]
    else
      var i := FirstIndex(s, sep);
      [s[..i]] + Split(s[i + 1..], sep, maxsplit - 1)
  }

  /** There are min(occurrences, maxsplit) + 1 parts. */
  lemma {:induction false} SplitCount(s: string, sep: char, maxsplit: nat)
    ensures |Split(s, sep, maxsplit)| == Min(Occurrences(s, sep), maxsplit) + 1
    decreases |s|
  {
    if sep !in s {
      NoOccurrences(s, sep);
    } else if maxsplit > 0 {
      var i := FirstIndex(s, sep);
      OccurrencesAt(s, sep, i);
      SplitCount(s[i + 1..], sep, maxsplit - 1);
    }
  }

  /** Once maxsplit > 0, the first part is the text before the first sep, which has no sep in it. */
  lemma SplitFirst(s: string, sep: char, maxsplit: nat)
    requires maxsplit > 0
    ensures sep !in Split(s, sep, maxsplit)[0]
    ensures sep in s ==> Split(s, sep, maxsplit)[0] == s[..FirstIndex(s, sep)]
  {
  }

  /** Joining the parts with sep gives s back. */
  lemma {:induction false} SplitJoin(s: string, sep: char, maxsplit: nat)
    ensures JoinWith(Split(s, sep, maxsplit), sep) == s
    decreases |s|
  {
    var parts := Split(s, sep, maxsplit);
    if sep in s && maxsplit > 0 {
      var i := FirstIndex(s, sep);
      var tail := s[i + 1..];
      var rest := Split(tail, sep, maxsplit - 1);
      SplitJoin(tail, sep, maxsplit - 1);
      assert parts == [s[..i]] + rest;
      JoinCons(s[..i], rest, sep);
      CutAt(s, i, sep);
    }
  }

  lemma JoinCons(head: string, rest: seq<string>, sep: char)
    requires |rest| > 0
    ensures JoinWith([head] + rest, sep) == head + [sep] + JoinWith(rest, sep)
  {
    assert ([head] + rest)[1..] == rest;
  }

  lemma CutAt(s: string, i: nat, c: char)
    requires i < |s| && s[i] == c
    ensures s[..i] + [c] + s[i + 1..] == s
  {
  }

  lemma {:induction false} NoOccurrences(s: string, c: char)
    requires c !in s
    ensures Occurrences(s, c) == 0
  {
    if s != [] {
      assert c !in s[1..];
      NoOccurrences(s[1..], c);
    }
  }

  lemma {:induction false} OccurrencesAt(s: string, c: char, i: nat)
    requires i < |s| && s[i] == c && c !in s[..i]
    ensures Occurrences(s, c) == 1 + Occurrences(s[i + 1..], c)
  {
    if i > 0 {
      assert s[1..][..i - 1] == s[1..i];
      assert c !in s[1..][..i - 1];
      OccurrencesAt(s[1..], c, i - 1);
      assert s[1..][i..] == s[i + 1..];
    }
  }
}
