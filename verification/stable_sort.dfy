/** `MutableList.sortBy { key }` / `Iterable.sortedBy { key }`: the JVM list
    sort is stable, so the model is a stable insertion sort on a key function. */
module StableSort {

  ghost predicate SortedBy<T>(s: seq<T>, key: T -> int) {
    forall i, j :: 0 <= i < j < |s| ==> key(s[i]) <= key(s[j])
  }

  /** The elements of `s` whose key is `k`, in their order in `s`. */
  function WithKey<T>(s: seq<T>, key: T -> int, k: int): seq<T> {
    if |s| == 0 then []
    else (if key(s[0]) == k then [s[0]] else []) + WithKey(s[1..], key, k)
  }

  /** Places `x` after every leading element whose key is at most its own. */
  function InsertBy<T>(x: T, s: seq<T>, key: T -> int): (r: seq<T>)
    ensures |r| == |s| + 1
    ensures multiset(r) == multiset(s) + multiset{x}
  {
    if |s| == 0 then [x]
    else if key(s[0]) <= key(x) then
      assert s == [s[0]] + s[1..];
      [s[0]] + InsertBy(x, s[1..], key)
    else [x] + s
  }

  /** Stable sort by `key`: each element is inserted after the equal keys already placed. */
  function SortBy<T>(s: seq<T>, key: T -> int): (r: seq<T>)
    ensures |r| == |s|
    ensures multiset(r) == multiset(s)
  {
    if |s| == 0 then []
    else
      assert s == s[..|s| - 1] + [s[|s| - 1]];
      InsertBy(s[|s| - 1], SortBy(s[..|s| - 1], key), key)
  }

  /** A lower bound on `x` and on every element of `s` bounds the whole insertion. */
  lemma {:induction false} InsertByBounded<T>(x: T, s: seq<T>, key: T -> int, lo: int)
    requires lo <= key(x)
    requires forall j :: 0 <= j < |s| ==> lo <= key(s[j])
    ensures forall i :: 0 <= i < |InsertBy(x, s, key)| ==> lo <= key(InsertBy(x, s, key)[i])
  {
    if |s| > 0 && key(s[0]) <= key(x) {
      var t := InsertBy(x, s[1..], key);
      forall j | 0 <= j < |s[1..]| ensures lo <= key(s[1..][j]) {
        assert s[1..][j] == s[j + 1];
      }
      InsertByBounded(x, s[1..], key, lo);
      assert InsertBy(x, s, key) == [s[0]] + t;
    }
  }

  lemma SortedTail<T>(s: seq<T>, key: T -> int)
    requires |s| > 0 && SortedBy(s, key)
    ensures SortedBy(s[1..], key)
    ensures forall j :: 0 <= j < |s[1..]| ==> key(s[0]) <= key(s[1..][j])
  {
    forall i, j | 0 <= i < j < |s[1..]| ensures key(s[1..][i]) <= key(s[1..][j]) {
      assert s[1..][i] == s[i + 1] && s[1..][j] == s[j + 1];
    }
    forall j | 0 <= j < |s[1..]| ensures key(s[0]) <= key(s[1..][j]) {
      assert s[1..][j] == s[j + 1];
    }
  }

  /** A sorted sequence stays sorted when `y` goes in front of it and no element is below `y`. */
  lemma SortedCons<T>(y: T, t: seq<T>, key: T -> int)
    requires SortedBy(t, key)
    requires forall j :: 0 <= j < |t| ==> key(y) <= key(t[j])
    ensures SortedBy([y] + t, key)
  {
    var r := [y] + t;
    forall i, j | 0 <= i < j < |r| ensures key(r[i]) <= key(r[j]) {
      assert r[j] == t[j - 1];
      if i > 0 {
        assert r[i] == t[i - 1];
      }
    }
  }

  lemma {:induction false} InsertBySorted<T>(x: T, s: seq<T>, key: T -> int)
    requires SortedBy(s, key)
    ensures SortedBy(InsertBy(x, s, key), key)
  {
    if |s| > 0 && key(s[0]) <= key(x) {
      var t := InsertBy(x, s[1..], key);
      SortedTail(s, key);
      InsertBySorted(x, s[1..], key);
      InsertByBounded(x, s[1..], key, key(s[0]));
      SortedCons(s[0], t, key);
      assert InsertBy(x, s, key) == [s[0]] + t;
    } else if |s| > 0 {
      SortedCons(x, s, key);
    }
  }

  /** The sort's result is ordered by key. */
  lemma {:induction false} SortBySorted<T>(s: seq<T>, key: T -> int)
    ensures SortedBy(SortBy(s, key), key)
  {
    if |s| > 0 {
      SortBySorted(s[..|s| - 1], key);
      InsertBySorted(s[|s| - 1], SortBy(s[..|s| - 1], key), key);
    }
  }

  lemma {:induction false} WithKeyAppend<T>(a: seq<T>, b: seq<T>, key: T -> int, k: int)
    ensures WithKey(a + b, key, k) == WithKey(a, key, k) + WithKey(b, key, k)
  {
    if |a| > 0 {
      assert (a + b)[1..] == a[1..] + b;
      WithKeyAppend(a[1..], b, key, k);
    } else {
      assert a + b == b;
    }
  }

  lemma {:induction false} WithKeyAbove<T>(s: seq<T>, key: T -> int, k: int)
    requires forall i :: 0 <= i < |s| ==> key(s[i]) > k
    ensures WithKey(s, key, k) == []
  {
    if |s| > 0 {
      WithKeyAbove(s[1..], key, k);
    }
  }

  lemma WithKeyCons<T>(y: T, t: seq<T>, key: T -> int, k: int)
    ensures WithKey([y] + t, key, k) == (if key(y) == k then [y] else []) + WithKey(t, key, k)
  {
    assert ([y] + t)[0] == y && ([y] + t)[1..] == t;
  }

  lemma {:induction false} WithKeyInsertBy<T>(x: T, s: seq<T>, key: T -> int, k: int)
    requires SortedBy(s, key)
    ensures WithKey(InsertBy(x, s, key), key, k)
            == WithKey(s, key, k) + (if key(x) == k then [x] else [])
  {
    if |s| == 0 {
      WithKeySingle(x, key, k);
    } else if key(s[0]) <= key(x) {
      SortedTail(s, key);
      WithKeyInsertBy(x, s[1..], key, k);
      WithKeyCons(s[0], InsertBy(x, s[1..], key), key, k);
    } else {
      WithKeyCons(x, s, key, k);
      if key(x) == k {
        forall i | 0 <= i < |s| ensures key(s[i]) > k {
          if i > 0 {
            assert key(s[0]) <= key(s[i]);
          }
        }
        WithKeyAbove(s, key, k);
      }
    }
  }

  /** Stability: among elements with equal keys the sort keeps the input order. */
  lemma {:induction false} SortByStable<T>(s: seq<T>, key: T -> int, k: int)
    ensures WithKey(SortBy(s, key), key, k) == WithKey(s, key, k)
  {
    if |s| > 0 {
      var p, x := s[..|s| - 1], s[|s| - 1];
      SortByStable(p, key, k);
      SortBySorted(p, key);
      WithKeyInsertBy(x, SortBy(p, key), key, k);
      WithKeySnoc(s, key, k);
    }
  }

  lemma WithKeySnoc<T>(s: seq<T>, key: T -> int, k: int)
    requires |s| > 0
    ensures WithKey(s, key, k)
            == WithKey(s[..|s| - 1], key, k) + (if key(s[|s| - 1]) == k then [s[|s| - 1]] else [])
  {
    assert s == s[..|s| - 1] + [s[|s| - 1]];
    WithKeyAppend(s[..|s| - 1], [s[|s| - 1]], key, k);
    WithKeySingle(s[|s| - 1], key, k);
  }

  lemma WithKeySingle<T>(x: T, key: T -> int, k: int)
    ensures WithKey([x], key, k) == if key(x) == k then [x] else []
  {
    assert [x][1..] == [];
  }
}
