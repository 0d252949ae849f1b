/** Extremes and an ordered listing of finite sets of keys. */
module SetUtil {

  lemma Pick<T>(s: set<T>) returns (x: T)
    requires s != {}
    ensures x in s
  {
    if forall y :: y !in s {
      assert false;
    }
    x :| x in s;
  }

  lemma MaxExists(s: set<int>)
    requires s != {}
    ensures exists m :: m in s && forall y | y in s :: y <= m
  {
    var x := Pick(s);
    if s != {x} {
      var rest := s - {x};
      MaxExists(rest);
      var m :| m in rest && forall y | y in rest :: y <= m;
      var best := if x > m then x else m;
      forall y | y in s ensures y <= best {
        if y != x {
          assert y in rest;
        }
      }
    }
  }

  lemma MinExists(s: set<int>)
    requires s != {}
    ensures exists m :: m in s && forall y | y in s :: m <= y
  {
    var x := Pick(s);
    if s != {x} {
      var rest := s - {x};
      MinExists(rest);
      var m :| m in rest && forall y | y in rest :: m <= y;
      var best := if x < m then x else m;
      forall y | y in s ensures best <= y {
        if y != x {
          assert y in rest;
        }
      }
    }
  }

  /** A subset is no larger than its superset. */
  lemma SubsetCard<T>(a: set<T>, b: set<T>)
    requires a <= b
    ensures |a| <= |b|
  {
    assert b == a + (b - a);
  }

  /** The largest element: what SQL `MAX` returns over a non-empty column. */
  function Max(s: set<int>): (m: int)
    requires s != {}
    ensures m in s && forall y | y in s :: y <= m
  {
    MaxExists(s);
    var m :| m in s && forall y | y in s :: y <= m; m
  }

  function Min(s: set<int>): (m: int)
    requires s != {}
    ensures m in s && forall y | y in s :: m <= y
  {
    MinExists(s);
    var m :| m in s && forall y | y in s :: m <= y; m
  }

  /** The elements of `s` in increasing order. */
  function Ascending(s: set<int>): (r: seq<int>)
    ensures |r| == |s|
    ensures forall x :: x in r <==> x in s
    ensures forall i, j | 0 <= i < j < |r| :: r[i] < r[j]
    decreases |s|
  {
    if s == {} then []
    else
      var m := Min(s);
      var rest := Ascending(s - {m});
      PrependLeast(s, m, rest);
      [m] + rest
  }

  /** Putting the least element in front of the listing of the others lists them all. */
  lemma PrependLeast(s: set<int>, m: int, rest: seq<int>)
    requires m in s && forall y | y in s :: m <= y
    requires |rest| == |s - {m}|
    requires forall x :: x in rest <==> x in s - {m}
    requires forall i, j | 0 <= i < j < |rest| :: rest[i] < rest[j]
    ensures var r := [m] + rest;
      && |r| == |s|
      && (forall x :: x in r <==> x in s)
      && (forall i, j | 0 <= i < j < |r| :: r[i] < r[j])
  {
    var r := [m] + rest;
    forall i, j | 0 <= i < j < |r| ensures r[i] < r[j] {
      assert r[j] == rest[j - 1] && r[j] in rest;
      if i > 0 {
        assert r[i] == rest[i - 1];
      }
    }
  }
}
