/**
  The stable sort by a real-valued key that LINQ's `OrderBy` and
  `OrderByDescending` perform, written as insertion sort: an element is
  inserted in front of the first element whose key is not smaller, so
  elements with equal keys keep their input order.
 */
module Sorting {

  /** `s` is in ascending order of `key`. */
  predicate Ascending<T>(s: seq<T>, key: T -> real)
  {
    forall i, j :: 0 <= i < j < |s| ==> key(s[i]) <= key(s[j])
  }

  /** Every key in `s` is at least `bound`. */
  predicate AtLeast<T>(s: seq<T>, key: T -> real, bound: real)
  {
    forall k :: 0 <= k < |s| ==> bound <= key(s[k])
  }

  /** `x` inserted into `s` in front of the first element whose key is not smaller than its own. */
  function InsertBy<T>(x: T, s: seq<T>, key: T -> real): (r: seq<T>)
    ensures |r| == |s| + 1
    ensures multiset(r) == multiset(s) + multiset{x}
  {
    if |s| == 0 || key(x) <= key(s[0]) then [x] + s
    else
      assert s == [s[0]] + s[1..];
      [s[0]] + InsertBy(x, s[1..], key)
  }

  /** Inserting keeps a lower bound that both the list and the new element respect. */
  lemma {:induction false} InsertAtLeast<T>(x: T, s: seq<T>, key: T -> real, bound: real)
    requires AtLeast(s, key, bound) && bound <= key(x)
    ensures AtLeast(InsertBy(x, s, key), key, bound)
  {
    if |s| > 0 && key(x) > key(s[0]) {
      InsertAtLeast(x, s[1..], key, bound);
    }
  }

  /** Inserting into an ascending list keeps it ascending. */
  lemma {:induction false} InsertAscending<T>(x: T, s: seq<T>, key: T -> real)
    requires Ascending(s, key)
    ensures Ascending(InsertBy(x, s, key), key)
  {
    if |s| > 0 && key(x) > key(s[0]) {
      InsertAscending(x, s[1..], key);
      InsertAtLeast(x, s[1..], key, key(s[0]));
      var r := InsertBy(x, s, key);
      assert r == [s[0]] + InsertBy(x, s[1..], key);
    }
  }

  /** Insertion sort by `key`: an ascending permutation of its input. */
  function SortBy<T>(s: seq<T>, key: T -> real): (r: seq<T>)
    ensures |r| == |s|
    ensures multiset(r) == multiset(s)
    ensures Ascending(r, key)
  {
    if |s| == 0 then []
    else
      assert s == [s[0]] + s[1..];
      InsertAscending(s[0], SortBy(s[1..], key), key);
      InsertBy(s[0], SortBy(s[1..], key), key)
  }

  /** The elements of `s` whose key is `c`, in their order in `s`. */
  function WithKey<T>(s: seq<T>, key: T -> real, c: real): (r: seq<T>)
    ensures |r| <= |s|
    ensures forall k :: 0 <= k < |r| ==> key(r[k]) == c && r[k] in s
  {
    if |s| == 0 then []
    else
      var rest := WithKey(s[1..], key, c);
      assert forall k :: 0 <= k < |rest| ==> rest[k] in s by {
        assert forall y :: y in s[1..] ==> y in s;
      }
      (if key(s[0]) == c then [s[0]] else []) + rest
  }

  /**
    Inserting `x` puts it in front of every element with its own key, and the
    other keys' elements keep their order; it needs no precondition because
    every element `InsertBy` steps over has a smaller key than `x`.
   */
  lemma {:induction false} InsertWithKey<T>(x: T, s: seq<T>, key: T -> real, c: real)
    ensures WithKey(InsertBy(x, s, key), key, c) == (if key(x) == c then [x] else []) + WithKey(s, key, c)
  {
    if |s| == 0 || key(x) <= key(s[0]) {
      assert ([x] + s)[1..] == s;
    } else {
      var r := InsertBy(x, s, key);
      assert r == [s[0]] + InsertBy(x, s[1..], key);
      assert r[1..] == InsertBy(x, s[1..], key);
      InsertWithKey(x, s[1..], key, c);
    }
  }

  /**
    `SortBy` is stable: for every key, the elements with that key appear in
    the sorted list in the same order as in the input.
   */
  lemma {:induction false} SortStable<T>(s: seq<T>, key: T -> real, c: real)
    ensures WithKey(SortBy(s, key), key, c) == WithKey(s, key, c)
  {
    if |s| > 0 {
      SortStable(s[1..], key, c);
      InsertWithKey(s[0], SortBy(s[1..], key), key, c);
    }
  }

  /** The first element with key `c` is preceded in `s` only by elements with other keys. */
  lemma {:induction false} WithKeyFirst<T>(s: seq<T>, key: T -> real, c: real)
    requires |WithKey(s, key, c)| > 0
    ensures exists k :: 0 <= k < |s| && s[k] == WithKey(s, key, c)[0] && forall j :: 0 <= j < k ==> key(s[j]) != c
  {
    if key(s[0]) != c {
      WithKeyFirst(s[1..], key, c);
      var k :| 0 <= k < |s[1..]| && s[1..][k] == WithKey(s[1..], key, c)[0]
                && forall j :: 0 <= j < k ==> key(s[1..][j]) != c;
      assert s[k + 1] == WithKey(s, key, c)[0];
      assert forall j :: 0 <= j < k + 1 ==> key(s[j]) != c by {
        forall j | 0 < j < k + 1
          ensures key(s[j]) != c
        {
          assert s[j] == s[1..][j - 1];
        }
      }
    } else {
      assert s[0] == WithKey(s, key, c)[0];
    }
  }

  /**
    The head of the sorted list is the first element of the input with the
    least key: every element before it in the input has a larger key.
   */
  lemma SortHeadFirst<T>(s: seq<T>, key: T -> real)
    requires |s| > 0
    ensures exists k :: 0 <= k < |s| && s[k] == SortBy(s, key)[0] && forall j :: 0 <= j < k ==> key(s[j]) > key(s[k])
  {
    var sorted := SortBy(s, key);
    var c := key(sorted[0]);
    SortStable(s, key, c);
    assert WithKey(sorted, key, c)[0] == sorted[0] by {
      assert sorted == [sorted[0]] + sorted[1..];
    }
    WithKeyFirst(s, key, c);
    var k :| 0 <= k < |s| && s[k] == sorted[0] && forall j :: 0 <= j < k ==> key(s[j]) != c;
    forall j | 0 <= j < k
      ensures key(s[j]) > c
    {
      assert s[j] in multiset(sorted);
      var i :| 0 <= i < |sorted| && sorted[i] == s[j];
      if i > 0 {
        assert key(sorted[0]) <= key(sorted[i]);
      }
    }
  }
}
