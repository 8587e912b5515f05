/**
  The final `matches.sort((a, b) => b.match_percentage - a.match_percentage)`
  (backend/src/utils/route.matching.js:133): a stable sort by a descending key,
  written as an insertion sort over sequences.
 */
module Ranking {

  /** Every entry's key is at least the next one's. */
  ghost predicate Descending<T>(key: T -> real, s: seq<T>)
  {
    forall i :: 0 <= i < |s| - 1 ==> key(s[i]) >= key(s[i + 1])
  }

  /** The adjacent-pair order implies the order of any two positions. */
  lemma {:induction false} DescendingPairwise<T>(key: T -> real, s: seq<T>, i: int, j: int)
    requires Descending(key, s)
    requires 0 <= i <= j < |s|
    ensures key(s[i]) >= key(s[j])
    decreases j - i
  {
    if i < j {
      DescendingPairwise(key, s, i + 1, j);
    }
  }

  /** The entries of s whose key is k, in their order in s. */
  function WithKey<T>(key: T -> real, s: seq<T>, k: real): seq<T>
  {
    if |s| == 0 then []
    else (if key(s[0]) == k then [s[0]] else []) + WithKey(key, s[1..], k)
  }

  /** Places m after every entry whose key is at least its own. */
  function Insert<T>(key: T -> real, m: T, s: seq<T>): (r: seq<T>)
    ensures |r| == |s| + 1
    ensures r[0] == m || (|s| > 0 && r[0] == s[0])
    ensures multiset(r) == multiset(s) + multiset{m}
  {
    if |s| == 0 then [m]
    else if key(s[0]) >= key(m) then
      assert s == [s[0]] + s[1..];
      [s[0]] + Insert(key, m, s[1..])
    else [m] + s
  }

  lemma {:induction false} InsertDescending<T>(key: T -> real, m: T, s: seq<T>)
    requires Descending(key, s)
    ensures Descending(key, Insert(key, m, s))
  {
    if |s| > 0 && key(s[0]) >= key(m) {
      var tail := Insert(key, m, s[1..]);
      InsertDescending(key, m, s[1..]);
      var r := [s[0]] + tail;
      assert r == Insert(key, m, s);
      forall i | 0 <= i < |r| - 1
        ensures key(r[i]) >= key(r[i + 1])
      {
        if i > 0 {
          assert r[i] == tail[i - 1] && r[i + 1] == tail[i];
        }
      }
    }
  }

  /** Sorts by descending key; the result is a permutation of s. */
  function SortDescending<T>(key: T -> real, s: seq<T>): (r: seq<T>)
    ensures multiset(r) == multiset(s)
    ensures Descending(key, r)
  {
    if |s| == 0 then []
    else
      assert s == s[..|s| - 1] + [s[|s| - 1]];
      InsertDescending(key, s[|s| - 1], SortDescending(key, s[..|s| - 1]));
      Insert(key, s[|s| - 1], SortDescending(key, s[..|s| - 1]))
  }

  lemma {:induction false} WithKeyAppend<T>(key: T -> real, a: seq<T>, b: seq<T>, k: real)
    ensures WithKey(key, a + b, k) == WithKey(key, a, k) + WithKey(key, b, k)
  {
    if |a| > 0 {
      assert (a + b)[1..] == a[1..] + b;
      WithKeyAppend(key, a[1..], b, k);
    } else {
      assert a + b == b;
    }
  }

  lemma WithKeySnoc<T>(key: T -> real, s: seq<T>, m: T, k: real)
    ensures WithKey(key, s + [m], k) == WithKey(key, s, k) + (if key(m) == k then [m] else [])
  {
    WithKeyAppend(key, s, [m], k);
    assert WithKey(key, [m], k) == (if key(m) == k then [m] else []) + WithKey(key, [], k);
  }

  /** A descending sequence whose first key is below k has no entry with key k. */
  lemma {:induction false} WithKeyNone<T>(key: T -> real, s: seq<T>, k: real)
    requires Descending(key, s)
    requires |s| > 0 && key(s[0]) < k
    ensures WithKey(key, s, k) == []
  {
    if |s| > 1 {
      assert key(s[1]) <= key(s[0]);
      WithKeyNone(key, s[1..], k);
    }
  }

  /** Inserting into a sorted sequence puts m after every entry of equal key. */
  lemma {:induction false} InsertKeepsKeyOrder<T>(key: T -> real, m: T, s: seq<T>, k: real)
    requires Descending(key, s)
    ensures WithKey(key, Insert(key, m, s), k) == WithKey(key, s, k) + (if key(m) == k then [m] else [])
  {
    if |s| == 0 {
      assert Insert(key, m, s) == [m];
      assert WithKey(key, [m], k) == (if key(m) == k then [m] else []) + WithKey(key, [], k);
    } else if key(s[0]) >= key(m) {
      assert Descending(key, s[1..]);
      InsertKeepsKeyOrder(key, m, s[1..], k);
      InsertBehindHead(key, m, s, k);
    } else {
      InsertInFront(key, m, s, k);
    }
  }

  /** The step case of InsertKeepsKeyOrder where m goes past the head. */
  lemma InsertBehindHead<T>(key: T -> real, m: T, s: seq<T>, k: real)
    requires |s| > 0 && key(s[0]) >= key(m)
    requires WithKey(key, Insert(key, m, s[1..]), k) == WithKey(key, s[1..], k) + (if key(m) == k then [m] else [])
    ensures WithKey(key, Insert(key, m, s), k) == WithKey(key, s, k) + (if key(m) == k then [m] else [])
  {
    var rest := Insert(key, m, s[1..]);
    var front := if key(s[0]) == k then [s[0]] else [];
    var extra := if key(m) == k then [m] else [];
    assert Insert(key, m, s) == [s[0]] + rest;
    WithKeyCons(key, s[0], rest, k);
    assert WithKey(key, s, k) == front + WithKey(key, s[1..], k);
    AppendAssoc(front, WithKey(key, s[1..], k), extra);
  }

  lemma AppendAssoc<T>(a: seq<T>, b: seq<T>, c: seq<T>)
    ensures a + (b + c) == (a + b) + c
  {
  }

  lemma WithKeyCons<T>(key: T -> real, x: T, t: seq<T>, k: real)
    ensures WithKey(key, [x] + t, k) == (if key(x) == k then [x] else []) + WithKey(key, t, k)
  {
    assert ([x] + t)[0] == x;
    assert ([x] + t)[1..] == t;
  }

  /** The case of InsertKeepsKeyOrder where m goes in front. */
  lemma InsertInFront<T>(key: T -> real, m: T, s: seq<T>, k: real)
    requires Descending(key, s)
    requires |s| > 0 && key(s[0]) < key(m)
    ensures WithKey(key, Insert(key, m, s), k) == WithKey(key, s, k) + (if key(m) == k then [m] else [])
  {
    assert Insert(key, m, s) == [m] + s;
    WithKeyAppend(key, [m], s, k);
    assert WithKey(key, [m], k) == (if key(m) == k then [m] else []) + WithKey(key, [], k);
    if key(m) == k {
      WithKeyNone(key, s, k);
    }
  }

  /** Stability: entries with equal keys keep their input order. */
  lemma {:induction false} SortIsStable<T>(key: T -> real, s: seq<T>, k: real)
    ensures WithKey(key, SortDescending(key, s), k) == WithKey(key, s, k)
  {
    if |s| > 0 {
      var init, last := s[..|s| - 1], s[|s| - 1];
      var sorted := SortDescending(key, init);
      assert SortDescending(key, s) == Insert(key, last, sorted);
      SortIsStable(key, init, k);
      InsertKeepsKeyOrder(key, last, sorted, k);
      assert s == init + [last];
      WithKeySnoc(key, init, last, k);
    }
  }
}
