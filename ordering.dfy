/**
 * Ordering helpers shared by the history view, the forecast and the drink
 * table: Kotlin's `maxByOrNull` and a stable descending sort
 * (`sortedByDescending`, and SQL's `ORDER BY ... DESC`).
 */
module Ordering {

  /** `s` is ordered by `key`, largest first. */
  predicate NonIncreasing<T>(s: seq<T>, key: T -> int) {
    forall i, j :: 0 <= i < j < |s| ==> key(s[i]) >= key(s[j])
  }

  /**
   * The index `maxByOrNull { key }` picks: a largest key, and the first
   * such element when several share it (an element replaces the current
   * maximum only when its key is strictly larger).
   */
  function LatestIndex<T>(s: seq<T>, key: T -> int): (i: nat)
    requires |s| > 0
    ensures i < |s|
    ensures forall j :: 0 <= j < |s| ==> key(s[j]) <= key(s[i])
    ensures forall j :: 0 <= j < i ==> key(s[j]) < key(s[i])
  {
    if |s| == 1 then 0
    else
      var k := LatestIndex(s[1..], key) + 1;
      assert forall j :: 1 <= j < |s| ==> s[j] == s[1..][j - 1];
      if key(s[k]) > key(s[0]) then k else 0
  }

  /** Inserts `x` before the first element whose key is not larger. */
  function Insert<T>(x: T, s: seq<T>, key: T -> int): (r: seq<T>)
    ensures multiset(r) == multiset(s) + multiset{x}
    ensures NonIncreasing(s, key) ==> NonIncreasing(r, key)
  {
    if s == [] || key(x) >= key(s[0]) then [x] + s
    else
      var t := Insert(x, s[1..], key);
      assert s == [s[0]] + s[1..];
      var r := [s[0]] + t;
      assert NonIncreasing(s, key) ==> NonIncreasing(r, key) by {
        if NonIncreasing(s, key) {
          HeadDominates(s, key);
          forall y | y in t ensures key(s[0]) >= key(y) {
            assert y in multiset(t);
          }
          ConsSorted(s[0], t, key);
        }
      }
      r
  }

  lemma HeadDominates<T>(s: seq<T>, key: T -> int)
    requires s != [] && NonIncreasing(s, key)
    ensures forall y :: y in s[1..] ==> key(s[0]) >= key(y)
  {
    forall y | y in s[1..] ensures key(s[0]) >= key(y) {
      var m :| 0 <= m < |s[1..]| && s[1..][m] == y;
      assert s[m + 1] == y;
    }
  }

  lemma ConsSorted<T>(a: T, t: seq<T>, key: T -> int)
    requires NonIncreasing(t, key)
    requires forall y :: y in t ==> key(a) >= key(y)
    ensures NonIncreasing([a] + t, key)
  {
    var r := [a] + t;
    forall i, j | 0 <= i < j < |r| ensures key(r[i]) >= key(r[j]) {
      if i == 0 {
        assert r[j] == t[j - 1];
      } else {
        assert r[i] == t[i - 1] && r[j] == t[j - 1];
      }
    }
  }

  /**
   * Stable insertion sort, largest key first: elements with equal keys
   * keep their input order, as Kotlin's `sortedByDescending` does.
   */
  function SortDesc<T>(s: seq<T>, key: T -> int): (r: seq<T>)
    ensures multiset(r) == multiset(s)
    ensures |r| == |s|
    ensures NonIncreasing(r, key)
  {
    if s == [] then []
    else
      var t := SortDesc(s[1..], key);
      assert s == [s[0]] + s[1..];
      Insert(s[0], t, key)
  }

  /** No two elements of `s` agree under the projection `f`. */
  ghost predicate DistinctBy<T, U>(s: seq<T>, f: T -> U) {
    forall i, j :: 0 <= i < j < |s| ==> f(s[i]) != f(s[j])
  }

  lemma ConsDistinct<T, U>(a: T, t: seq<T>, f: T -> U)
    requires DistinctBy(t, f)
    requires forall y :: y in t ==> f(y) != f(a)
    ensures DistinctBy([a] + t, f)
  {
    var r := [a] + t;
    forall i, j | 0 <= i < j < |r| ensures f(r[i]) != f(r[j]) {
      assert r[j] == t[j - 1];
      if i > 0 {
        assert r[i] == t[i - 1];
      } else {
        assert r[j] in t;
      }
    }
  }

  /** Sorting keeps elements distinct under a projection `f`. */
  lemma {:induction false} SortKeepsDistinct<T, U>(s: seq<T>, key: T -> int, f: T -> U)
    requires DistinctBy(s, f)
    ensures DistinctBy(SortDesc(s, key), f)
  {
    if s != [] {
      assert DistinctBy(s[1..], f) by {
        forall i, j | 0 <= i < j < |s[1..]| ensures f(s[1..][i]) != f(s[1..][j]) {
          assert s[1..][i] == s[i + 1] && s[1..][j] == s[j + 1];
        }
      }
      SortKeepsDistinct(s[1..], key, f);
      var t := SortDesc(s[1..], key);
      forall y | y in t ensures f(y) != f(s[0]) {
        assert y in multiset(s[1..]);
        var k :| 0 <= k < |s[1..]| && s[1..][k] == y;
        assert s[k + 1] == y;
      }
      InsertKeepsDistinct(s[0], t, key, f);
    }
  }

  lemma {:induction false} InsertKeepsDistinct<T, U>(x: T, s: seq<T>, key: T -> int, f: T -> U)
    requires DistinctBy(s, f)
    requires forall y :: y in s ==> f(y) != f(x)
    ensures DistinctBy(Insert(x, s, key), f)
  {
    if s == [] || key(x) >= key(s[0]) {
      ConsDistinct(x, s, f);
    } else {
      assert DistinctBy(s[1..], f) by {
        forall i, j | 0 <= i < j < |s[1..]| ensures f(s[1..][i]) != f(s[1..][j]) {
          assert s[1..][i] == s[i + 1] && s[1..][j] == s[j + 1];
        }
      }
      InsertKeepsDistinct(x, s[1..], key, f);
      var t := Insert(x, s[1..], key);
      forall y | y in t ensures f(y) != f(s[0]) {
        assert y in multiset(t);
        if y != x {
          var k :| 0 <= k < |s[1..]| && s[1..][k] == y;
          assert s[k + 1] == y;
        }
      }
      ConsDistinct(s[0], t, f);
    }
  }
}
