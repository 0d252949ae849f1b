/**
 * A stable insertion sort under a caller-supplied comparison, and a
 * code-point lexicographic order on strings that stands in for the
 * database collation of an `ORDER BY` on a text column.
 */
module Sorting {
  import opened SetUtil

  ghost predicate Total<T(!new)>(le: (T, T) -> bool)
  {
    forall a, b :: le(a, b) || le(b, a)
  }

  ghost predicate Transitive<T(!new)>(le: (T, T) -> bool)
  {
    forall a, b, c :: le(a, b) && le(b, c) ==> le(a, c)
  }

  predicate SortedBy<T>(s: seq<T>, le: (T, T) -> bool)
  {
    forall i, j | 0 <= i < j < |s| :: le(s[i], s[j])
  }

  function Insert<T>(x: T, s: seq<T>, le: (T, T) -> bool): (r: seq<T>)
    ensures multiset(r) == multiset(s) + multiset{x}
    ensures |r| == |s| + 1
  {
    if s == [] then [x]
    else if le(x, s[0]) then [x] + s
    else
      assert s == [s[0]] + s[1..];
      [s[0]] + Insert(x, s[1..], le)
  }

  /** Insertion sort; an element placed earlier in `s` stays ahead of an equal one. */
  function SortBy<T>(s: seq<T>, le: (T, T) -> bool): (r: seq<T>)
    ensures multiset(r) == multiset(s)
    ensures |r| == |s|
  {
    if s == [] then []
    else
      assert s == [s[0]] + s[1..];
      Insert(s[0], SortBy(s[1..], le), le)
  }

  lemma {:induction false} InsertSorted<T(!new)>(x: T, s: seq<T>, le: (T, T) -> bool)
    requires Total(le) && Transitive(le)
    requires SortedBy(s, le)
    ensures SortedBy(Insert(x, s, le), le)
  {
    if s != [] && !le(x, s[0]) {
      var tail := Insert(x, s[1..], le);
      InsertSorted(x, s[1..], le);
      assert le(s[0], x);
      forall k | 0 <= k < |tail| ensures le(s[0], tail[k]) {
        assert tail[k] in multiset(tail);
        assert tail[k] == x || tail[k] in multiset(s[1..]);
        if tail[k] != x {
          var j :| 0 <= j < |s[1..]| && s[1..][j] == tail[k];
          assert s[j + 1] == tail[k];
        }
      }
    }
  }

  lemma {:induction false} SortSorted<T(!new)>(s: seq<T>, le: (T, T) -> bool)
    requires Total(le) && Transitive(le)
    ensures SortedBy(SortBy(s, le), le)
  {
    if s != [] {
      SortSorted(s[1..], le);
      InsertSorted(s[0], SortBy(s[1..], le), le);
    }
  }

  /** Code-point lexicographic order: `a` sorts no later than `b`. */
  predicate LexLe(a: string, b: string)
    decreases |a|
  {
    a == [] || (b != [] && (a[0] < b[0] || (a[0] == b[0] && LexLe(a[1..], b[1..]))))
  }

  lemma {:induction false} LexTotal(a: string, b: string)
    ensures LexLe(a, b) || LexLe(b, a)
    decreases |a|
  {
    if a != [] && b != [] && a[0] == b[0] {
      LexTotal(a[1..], b[1..]);
    }
  }

  lemma {:induction false} LexAntisymmetric(a: string, b: string)
    ensures LexLe(a, b) && LexLe(b, a) ==> a == b
    decreases |a|
  {
    if a != [] && b != [] && a[0] == b[0] {
      LexAntisymmetric(a[1..], b[1..]);
      assert a == [a[0]] + a[1..] && b == [b[0]] + b[1..];
    }
  }

  lemma {:induction false} LexTransitive(a: string, b: string, c: string)
    ensures LexLe(a, b) && LexLe(b, c) ==> LexLe(a, c)
    decreases |a|
  {
    if a != [] && b != [] && c != [] && a[0] == b[0] == c[0] {
      LexTransitive(a[1..], b[1..], c[1..]);
    }
  }

  /** The rows of `m` with ids `ids`, paired with their ids. */
  function Entries<T>(m: map<int, T>, ids: seq<int>): (r: seq<(int, T)>)
    requires forall i | 0 <= i < |ids| :: ids[i] in m
    ensures |r| == |ids|
    ensures forall i | 0 <= i < |ids| :: r[i] == (ids[i], m[ids[i]])
  {
    seq(|ids|, i requires 0 <= i < |ids| => (ids[i], m[ids[i]]))
  }

  /**
   * What sorting the rows `entries` of `m` (listed by ascending id, the ids
   * being `ids`) leaves: the same rows, each once.
   */
  lemma SortedEntriesCover<T>(m: map<int, T>, ids: set<int>, asc: seq<int>, entries: seq<(int, T)>, r: seq<(int, T)>)
    requires ids <= m.Keys
    requires forall x :: x in asc <==> x in ids
    requires forall i, j | 0 <= i < j < |asc| :: asc[i] < asc[j]
    requires |entries| == |asc|
    requires forall i | 0 <= i < |asc| :: asc[i] in m && entries[i] == (asc[i], m[asc[i]])
    requires multiset(r) == multiset(entries)
    ensures forall i | 0 <= i < |r| :: r[i].0 in ids && r[i].1 == m[r[i].0]
    ensures forall k | k in ids :: exists i | 0 <= i < |r| :: r[i].0 == k
    ensures forall i, j | 0 <= i < j < |r| :: r[i].0 != r[j].0
  {
    forall i | 0 <= i < |r| ensures r[i].0 in ids && r[i].1 == m[r[i].0] {
      assert r[i] in multiset(entries);
    }
    forall k | k in ids ensures exists i | 0 <= i < |r| :: r[i].0 == k {
      var j :| 0 <= j < |asc| && asc[j] == k;
      assert entries[j] in multiset(r);
    }
    DistinctKeysKept(entries, r);
  }

  lemma DistinctKeysKept<T>(entries: seq<(int, T)>, r: seq<(int, T)>)
    requires forall i, j | 0 <= i < j < |entries| :: entries[i].0 != entries[j].0
    requires multiset(r) == multiset(entries)
    ensures forall i, j | 0 <= i < j < |r| :: r[i].0 != r[j].0
  {
    forall i, j | 0 <= i < j < |r| ensures r[i].0 != r[j].0 {
      assert r[i] in multiset(entries) && r[j] in multiset(entries);
      var a :| 0 <= a < |entries| && entries[a] == r[i];
      var b :| 0 <= b < |entries| && entries[b] == r[j];
      SingleOccurrence(entries, a);
      TwoOccurrences(r, i, j);
    }
  }

  lemma TwoOccurrences<T>(r: seq<T>, i: int, j: int)
    requires 0 <= i < j < |r|
    ensures r[i] == r[j] ==> multiset(r)[r[i]] >= 2
  {
    assert r == r[..i] + [r[i]] + r[i + 1..j] + [r[j]] + r[j + 1..];
  }

  lemma SingleOccurrence<T>(entries: seq<(int, T)>, a: int)
    requires forall i, j | 0 <= i < j < |entries| :: entries[i].0 != entries[j].0
    requires 0 <= a < |entries|
    ensures multiset(entries)[entries[a]] == 1
  {
    var e := entries[a];
    assert entries == entries[..a] + [e] + entries[a + 1..];
    forall i | 0 <= i < |entries| && i != a ensures entries[i] != e {
      if i < a {
        assert entries[i].0 != entries[a].0;
      } else {
        assert entries[a].0 != entries[i].0;
      }
    }
    assert e !in entries[..a];
    assert e !in entries[a + 1..];
  }
}
