/** `Array.prototype.sort` with a comparator, as a stable insertion sort over sequences: each
    element goes after every earlier one that does not compare greater than it. */
module Sorting {
  /** `cmp(a, b) <= 0`: `a` may stay before `b`. */
  predicate NotAfter<T>(cmp: (T, T) -> real, a: T, b: T) {
    cmp(a, b) <= 0.0
  }

  /** Every element may stay before every later one. */
  predicate Ordered<T>(s: seq<T>, cmp: (T, T) -> real) {
    forall i, j :: 0 <= i < j < |s| ==> NotAfter(cmp, s[i], s[j])
  }

  /** A comparator that describes a total preorder: any two values compare one way or the other,
      and "not after" is transitive. The comparators of the search meet it when their scores or
      field values are ordered like numbers. */
  ghost predicate Consistent<T(!new)>(cmp: (T, T) -> real) {
    && (forall a, b :: NotAfter(cmp, a, b) || NotAfter(cmp, b, a))
    && (forall a, b, c :: NotAfter(cmp, a, b) && NotAfter(cmp, b, c) ==> NotAfter(cmp, a, c))
  }

  /** Inserts `x` into `s` before the first element that compares greater than it. */
  function Insert<T>(x: T, s: seq<T>, cmp: (T, T) -> real): (r: seq<T>)
    ensures multiset(r) == multiset(s) + multiset{x}
    ensures |r| == |s| + 1
  {
    if |s| == 0 then [x]
    else if cmp(s[0], x) > 0.0 then [x] + s
    else
      assert s == [s[0]] + s[1..];
      [s[0]] + Insert(x, s[1..], cmp)
  }

  /** The sort: every element in turn is inserted into the sorted prefix before it. */
  function Sort<T>(xs: seq<T>, cmp: (T, T) -> real): (r: seq<T>)
    ensures multiset(r) == multiset(xs)
    ensures |r| == |xs|
  {
    if |xs| == 0 then []
    else
      assert xs == xs[..|xs| - 1] + [xs[|xs| - 1]];
      Insert(xs[|xs| - 1], Sort(xs[..|xs| - 1], cmp), cmp)
  }

  lemma {:induction false} InsertOrdered<T(!new)>(x: T, s: seq<T>, cmp: (T, T) -> real)
    requires Consistent(cmp) && Ordered(s, cmp)
    ensures Ordered(Insert(x, s, cmp), cmp)
    decreases |s|
  {
    if |s| > 0 && cmp(s[0], x) <= 0.0 {
      var tail := s[1..];
      assert Ordered(tail, cmp) by {
        forall i, j | 0 <= i < j < |tail| ensures NotAfter(cmp, tail[i], tail[j]) {
          assert tail[i] == s[i + 1] && tail[j] == s[j + 1];
        }
      }
      InsertOrdered(x, tail, cmp);
      var rest := Insert(x, tail, cmp);
      assert multiset(rest) == multiset(tail) + multiset{x};
      forall k | 0 <= k < |rest| ensures NotAfter(cmp, s[0], rest[k]) {
        assert rest[k] in multiset(rest);
        if rest[k] != x {
          assert rest[k] in multiset(tail);
          assert rest[k] in tail;
          var m :| 0 <= m < |tail| && tail[m] == rest[k];
          assert s[m + 1] == rest[k];
        }
      }
      var r := [s[0]] + rest;
      forall i, j | 0 <= i < j < |r| ensures NotAfter(cmp, r[i], r[j]) {
        if i > 0 {
          assert r[i] == rest[i - 1] && r[j] == rest[j - 1];
        } else {
          assert r[j] == rest[j - 1];
        }
      }
    } else if |s| > 0 {
      var r := [x] + s;
      forall i, j | 0 <= i < j < |r| ensures NotAfter(cmp, r[i], r[j]) {
        if i > 0 {
          assert r[i] == s[i - 1] && r[j] == s[j - 1];
        } else {
          assert r[j] == s[j - 1];
          assert NotAfter(cmp, x, s[0]);
          if j > 1 {
            assert NotAfter(cmp, s[0], s[j - 1]);
          }
        }
      }
    }
  }

  /** Under a consistent comparator the result is in order. */
  lemma {:induction false} SortOrdered<T(!new)>(xs: seq<T>, cmp: (T, T) -> real)
    requires Consistent(cmp)
    ensures Ordered(Sort(xs, cmp), cmp)
    decreases |xs|
  {
    if |xs| > 0 {
      SortOrdered(xs[..|xs| - 1], cmp);
      InsertOrdered(xs[|xs| - 1], Sort(xs[..|xs| - 1], cmp), cmp);
    }
  }
}
