/**
 * The order in which the history is reported: Python's string order on
 * timestamps, a stable sort that puts the latest timestamp first, and the
 * `[:limit]` slice that keeps the front of the sorted list.
 */
module HistoryOrder {

  // -------------------------------------------------------------------------
  // String order

  /** Python's `<` on str: code point by code point, a proper prefix first. */
  predicate Below(a: string, b: string)
    decreases |a|
  {
    if a == [] then b != []
    else if b == [] then false
    else if a[0] != b[0] then a[0] < b[0]
    else Below(a[1..], b[1..])
  }

  lemma {:induction false} BelowIrreflexive(a: string)
    ensures !Below(a, a)
  {
    if a != [] {
      BelowIrreflexive(a[1..]);
    }
  }

  lemma {:induction false} BelowTransitive(a: string, b: string, c: string)
    ensures Below(a, b) && Below(b, c) ==> Below(a, c)
    decreases |a|
  {
    if a != [] && b != [] && c != [] && a[0] == b[0] && b[0] == c[0] {
      BelowTransitive(a[1..], b[1..], c[1..]);
    }
  }

  /** Any two strings are equal or one is below the other. */
  lemma {:induction false} BelowTotal(a: string, b: string)
    ensures a == b || Below(a, b) || Below(b, a)
    decreases |a|
  {
    if a != [] && b != [] && a[0] == b[0] {
      BelowTotal(a[1..], b[1..]);
      assert a == [a[0]] + a[1..] && b == [b[0]] + b[1..];
    }
  }

  lemma BelowAsymmetric(a: string, b: string)
    ensures Below(a, b) ==> !Below(b, a)
  {
    BelowTransitive(a, b, a);
    BelowIrreflexive(a);
  }

  /** b <= a < c gives b < c. */
  lemma AtMostThenBelow(a: string, b: string, c: string)
    ensures !Below(a, b) && Below(a, c) ==> Below(b, c)
  {
    BelowTotal(a, b);
    BelowTransitive(b, a, c);
  }

  /** c <= b <= a gives c <= a. */
  lemma AtMostTransitive(a: string, b: string, c: string)
    ensures !Below(a, b) && !Below(b, c) ==> !Below(a, c)
  {
    BelowTotal(a, b);
    BelowTransitive(b, a, c);
  }

  // -------------------------------------------------------------------------
  // Stable sort, latest key first

  /** No element's key is below its successor's: the keys never increase. */
  predicate Descending<T>(r: seq<T>, key: T -> string) {
    forall i :: 0 < i < |r| ==> !Below(key(r[i - 1]), key(r[i]))
  }

  /**
   * Insert `x`, which comes after every element of `r` in the original
   * order, in front of the first element whose key is below its own: after
   * all elements with an equal key, as a stable sort must.
   */
  function Insert<T>(r: seq<T>, x: T, key: T -> string): seq<T> {
    if r == [] then [x]
    else if Below(key(r[0]), key(x)) then [x] + r
    else [r[0]] + Insert(r[1..], x, key)
  }

  /** `sorted(s, key=key, reverse=True)`: latest key first, equal keys in their original order. */
  function SortDescending<T>(s: seq<T>, key: T -> string): seq<T>
    decreases |s|
  {
    if s == [] then []
    else Insert(SortDescending(s[..|s| - 1], key), s[|s| - 1], key)
  }

  /** The elements of `s` with key `k`, in their order in `s`. */
  function WithKey<T>(s: seq<T>, key: T -> string, k: string): seq<T> {
    if s == [] then []
    else (if key(s[0]) == k then [s[0]] else []) + WithKey(s[1..], key, k)
  }

  /** What follows position `i` of a descending sequence is descending. */
  lemma DescendingSuffix<T>(r: seq<T>, key: T -> string, i: nat)
    requires Descending(r, key) && i <= |r|
    ensures Descending(r[i..], key)
  {
    forall m | 0 < m < |r| - i ensures !Below(key(r[i..][m - 1]), key(r[i..][m])) {
      assert r[i..][m - 1] == r[i + m - 1] && r[i..][m] == r[i + m];
    }
  }

  /** A key not below the head of a descending sequence can go in front of it. */
  lemma DescendingCons<T>(x: T, r: seq<T>, key: T -> string)
    requires Descending(r, key) && (r == [] || !Below(key(x), key(r[0])))
    ensures Descending([x] + r, key)
  {
    forall i | 0 < i < |r| + 1 ensures !Below(key(([x] + r)[i - 1]), key(([x] + r)[i])) {
      if i > 1 {
        assert ([x] + r)[i - 1] == r[i - 2] && ([x] + r)[i] == r[i - 1];
      }
    }
  }

  lemma {:induction false} InsertDescending<T>(r: seq<T>, x: T, key: T -> string)
    requires Descending(r, key)
    ensures Descending(Insert(r, x, key), key)
    decreases |r|
  {
    if r == [] {
    } else if Below(key(r[0]), key(x)) {
      BelowAsymmetric(key(r[0]), key(x));
      DescendingCons(x, r, key);
    } else {
      DescendingSuffix(r, key, 1);
      InsertDescending(r[1..], x, key);
      DescendingCons(r[0], Insert(r[1..], x, key), key);
    }
  }

  /** Sorting yields keys that never increase. */
  lemma {:induction false} SortIsDescending<T>(s: seq<T>, key: T -> string)
    ensures Descending(SortDescending(s, key), key)
    decreases |s|
  {
    if s != [] {
      SortIsDescending(s[..|s| - 1], key);
      InsertDescending(SortDescending(s[..|s| - 1], key), s[|s| - 1], key);
    }
  }

  /** In a descending sequence, no key after the first is above the first. */
  lemma {:induction false} DescendingBelowFirst<T>(r: seq<T>, key: T -> string, j: nat)
    requires Descending(r, key) && j < |r|
    ensures !Below(key(r[0]), key(r[j]))
  {
    if j == 0 {
      BelowIrreflexive(key(r[0]));
    } else {
      DescendingBelowFirst(r, key, j - 1);
      AtMostTransitive(key(r[0]), key(r[j - 1]), key(r[j]));
    }
  }

  /** Descending order holds between any two positions, not only neighbours. */
  lemma DescendingPairwise<T>(r: seq<T>, key: T -> string, i: nat, j: nat)
    requires Descending(r, key) && i <= j < |r|
    ensures !Below(key(r[i]), key(r[j]))
  {
    DescendingSuffix(r, key, i);
    DescendingBelowFirst(r[i..], key, j - i);
  }

  /** A descending sequence whose first key is below `k` holds no element with key `k`. */
  lemma {:induction false} NoneWithLargerKey<T>(r: seq<T>, key: T -> string, k: string)
    requires Descending(r, key) && r != [] && Below(key(r[0]), k)
    ensures WithKey(r, key, k) == []
    decreases |r|
  {
    BelowIrreflexive(k);
    if |r| > 1 {
      AtMostThenBelow(key(r[0]), key(r[1]), k);
      DescendingSuffix(r, key, 1);
      NoneWithLargerKey(r[1..], key, k);
    }
  }

  /** The elements with key `k` of `[x] + r`: `x` if its key is `k`, then those of `r`. */
  lemma WithKeyCons<T>(x: T, r: seq<T>, key: T -> string, k: string)
    ensures WithKey([x] + r, key, k) == (if key(x) == k then [x] else []) + WithKey(r, key, k)
  {
    assert ([x] + r)[0] == x && ([x] + r)[1..] == r;
  }

  /** Inserting `x` adds it after every element with the same key. */
  lemma {:induction false} InsertWithKey<T>(r: seq<T>, x: T, key: T -> string, k: string)
    requires Descending(r, key)
    ensures WithKey(Insert(r, x, key), key, k) == WithKey(r, key, k) + (if key(x) == k then [x] else [])
    decreases |r|
  {
    var hx := if key(x) == k then [x] else [];
    if r == [] {
      WithKeyCons(x, [], key, k);
    } else if Below(key(r[0]), key(x)) {
      WithKeyCons(x, r, key, k);
      if key(x) == k {
        NoneWithLargerKey(r, key, k);
      }
    } else {
      var rest := Insert(r[1..], x, key);
      var h0 := if key(r[0]) == k then [r[0]] else [];
      assert Insert(r, x, key) == [r[0]] + rest;
      DescendingSuffix(r, key, 1);
      InsertWithKey(r[1..], x, key, k);
      WithKeyCons(r[0], rest, key, k);
      WithKeyCons(r[0], r[1..], key, k);
      assert [r[0]] + r[1..] == r;
      assert WithKey(Insert(r, x, key), key, k) == h0 + (WithKey(r[1..], key, k) + hx);
      assert h0 + (WithKey(r[1..], key, k) + hx) == (h0 + WithKey(r[1..], key, k)) + hx;
    }
  }

  lemma {:induction false} WithKeyAppend<T>(a: seq<T>, b: seq<T>, key: T -> string, k: string)
    ensures WithKey(a + b, key, k) == WithKey(a, key, k) + WithKey(b, key, k)
    decreases |a|
  {
    if a == [] {
      assert a + b == b;
    } else {
      var h := if key(a[0]) == k then [a[0]] else [];
      assert a + b == [a[0]] + (a[1..] + b) && a == [a[0]] + a[1..];
      WithKeyCons(a[0], a[1..] + b, key, k);
      WithKeyCons(a[0], a[1..], key, k);
      WithKeyAppend(a[1..], b, key, k);
      assert h + (WithKey(a[1..], key, k) + WithKey(b, key, k))
          == (h + WithKey(a[1..], key, k)) + WithKey(b, key, k);
    }
  }

  /** Sorting is stable: the elements sharing any one key keep their original order. */
  lemma {:induction false} SortIsStable<T>(s: seq<T>, key: T -> string, k: string)
    ensures WithKey(SortDescending(s, key), key, k) == WithKey(s, key, k)
    decreases |s|
  {
    if s != [] {
      var init, last := s[..|s| - 1], s[|s| - 1];
      SortIsStable(init, key, k);
      SortIsDescending(init, key);
      InsertWithKey(SortDescending(init, key), last, key, k);
      assert s == init + [last];
      WithKeyAppend(init, [last], key, k);
      assert WithKey([last], key, k) == (if key(last) == k then [last] else []) + WithKey([last][1..], key, k);
    }
  }

  lemma {:induction false} InsertPermutes<T>(r: seq<T>, x: T, key: T -> string)
    ensures multiset(Insert(r, x, key)) == multiset(r) + multiset{x}
    decreases |r|
  {
    if r != [] && !Below(key(r[0]), key(x)) {
      InsertPermutes(r[1..], x, key);
      assert r == [r[0]] + r[1..];
    }
  }

  /** Sorting only reorders: the result holds the same elements, each as often. */
  lemma {:induction false} SortPermutes<T>(s: seq<T>, key: T -> string)
    ensures multiset(SortDescending(s, key)) == multiset(s)
    decreases |s|
  {
    if s != [] {
      SortPermutes(s[..|s| - 1], key);
      InsertPermutes(SortDescending(s[..|s| - 1], key), s[|s| - 1], key);
      assert s == s[..|s| - 1] + [s[|s| - 1]];
    }
  }

  // -------------------------------------------------------------------------
  // The `[:limit]` slice

  /** The length of `s[:limit]` for a list of length n: negative limits count from the end. */
  function SliceLength(n: nat, limit: int): nat {
    if limit >= 0 then (if limit <= n then limit else n)
    else if n + limit >= 0 then n + limit
    else 0
  }

  /** `s[:limit]`: the first `limit` elements, or all but the last `-limit` when negative. */
  function Front<T>(s: seq<T>, limit: int): (r: seq<T>)
    ensures |r| <= |s| && r == s[..|r|]
    ensures |r| == SliceLength(|s|, limit)
  {
    s[..SliceLength(|s|, limit)]
  }

  /** For a non-negative limit the slice holds min(limit, |s|) elements. */
  lemma FrontOfNonNegative<T>(s: seq<T>, limit: int)
    requires limit >= 0
    ensures |Front(s, limit)| == if limit < |s| then limit else |s|
  {
  }

  /** The front of a descending sequence is descending. */
  lemma FrontDescending<T>(s: seq<T>, key: T -> string, limit: int)
    requires Descending(s, key)
    ensures Descending(Front(s, limit), key)
  {
  }

  /** The front holds no element more often than the whole. */
  lemma FrontSubmultiset<T>(s: seq<T>, limit: int)
    ensures multiset(Front(s, limit)) <= multiset(s)
  {
    var n := SliceLength(|s|, limit);
    assert s == s[..n] + s[n..];
  }

  /** Cutting a sequence cuts each key's elements: what is kept of them comes first in `s`. */
  lemma WithKeyFront<T>(s: seq<T>, key: T -> string, k: string, n: nat)
    requires n <= |s|
    ensures WithKey(s[..n], key, k) <= WithKey(s, key, k)
  {
    assert s == s[..n] + s[n..];
    WithKeyAppend(s[..n], s[n..], key, k);
  }
}
