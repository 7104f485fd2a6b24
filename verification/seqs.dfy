/** Sequence helpers with the JavaScript meaning the model needs:
    `Array.from(new Set(xs))` is `Dedup`, `xs.filter(p)` is `Filter`, `xs.slice(0, n)` is `Take`. */
module Seqs {
  import opened Wrappers

  /** No value occurs twice. */
  predicate NoDups<T(==)>(s: seq<T>) {
    forall i, j :: 0 <= i < j < |s| ==> s[i] != s[j]
  }

  /** Position of the first occurrence of `x` in `s`. */
  function FirstIndex<T(==)>(s: seq<T>, x: T): (r: nat)
    requires x in s
    ensures r < |s| && s[r] == x && x !in s[..r]
  {
    if s[0] == x then 0
    else
      assert x in s[1..] by { assert s == [s[0]] + s[1..]; }
      var k := FirstIndex(s[1..], x);
      assert s[..k + 1] == [s[0]] + s[1..][..k];
      1 + k
  }

  /** `Array.from(new Set(s))`: the distinct values of `s`, each kept at its first occurrence. */
  function Dedup<T(==,!new)>(s: seq<T>): (r: seq<T>)
    ensures NoDups(r)
    ensures forall x :: x in r <==> x in s
    ensures |r| <= |s|
    decreases |s|
  {
    if |s| == 0 then []
    else
      var init := s[..|s| - 1];
      var last := s[|s| - 1];
      assert s == init + [last];
      var r0 := Dedup(init);
      if last in r0 then r0 else r0 + [last]
  }

  /** `s.filter(p)`. */
  function Filter<T(!new)>(s: seq<T>, p: T -> bool): (r: seq<T>)
    ensures forall x :: x in r <==> x in s && p(x)
    ensures |r| <= |s|
  {
    if |s| == 0 then []
    else
      assert s == [s[0]] + s[1..];
      if p(s[0]) then [s[0]] + Filter(s[1..], p) else Filter(s[1..], p)
  }

  /** Filtering keeps every survivor as many times as it occurs: a repeated value is not merged. */
  lemma {:induction false} FilterCounts<T(!new)>(s: seq<T>, p: T -> bool)
    ensures forall x :: multiset(Filter(s, p))[x] == if p(x) then multiset(s)[x] else 0
    decreases |s|
  {
    if |s| > 0 {
      FilterCounts(s[1..], p);
      assert s == [s[0]] + s[1..];
      assert multiset(s) == multiset{s[0]} + multiset(s[1..]);
    }
  }

  /** The first value `f` yields over `xs`, in order. */
  function FirstOf<T, U>(xs: seq<T>, f: T -> Option<U>): (r: Option<U>)
    ensures r.None? <==> forall k :: 0 <= k < |xs| ==> f(xs[k]).None?
    ensures r.Some? ==> exists k :: (0 <= k < |xs| && f(xs[k]) == r && forall j :: 0 <= j < k ==> f(xs[j]).None?)
  {
    if |xs| == 0 then None
    else if f(xs[0]).Some? then f(xs[0])
    else
      assert forall j :: 1 <= j < |xs| ==> xs[j] == xs[1..][j - 1];
      FirstOf(xs[1..], f)
  }

  /** `FirstOf` reads `f` only at the elements of `xs`. */
  lemma {:induction false} FirstOfOnlyReads<T, U>(xs: seq<T>, f: T -> Option<U>, g: T -> Option<U>)
    requires forall k :: 0 <= k < |xs| ==> f(xs[k]) == g(xs[k])
    ensures FirstOf(xs, f) == FirstOf(xs, g)
    decreases |xs|
  {
    if |xs| > 0 {
      assert forall k :: 1 <= k < |xs| ==> xs[k] == xs[1..][k - 1];
      FirstOfOnlyReads(xs[1..], f, g);
    }
  }

  /** `s.slice(0, n)` for a non-negative `n`. */
  function Take<T>(s: seq<T>, n: nat): (r: seq<T>)
    ensures |r| == if |s| <= n then |s| else n
    ensures r == s[..|r|]
    ensures |s| <= n ==> r == s
  {
    if |s| <= n then s else s[..n]
  }

  /** `r` can be obtained from `s` by deleting elements: the order of what remains is kept. */
  ghost predicate IsSubsequence<T>(r: seq<T>, s: seq<T>)
    decreases |s|
  {
    if |r| == 0 then true
    else if |s| == 0 then false
    else if r[0] == s[0] then IsSubsequence(r[1..], s[1..])
    else IsSubsequence(r, s[1..])
  }

  /** Filtering only deletes: the survivors keep their relative order. */
  lemma {:induction false} FilterIsSubsequence<T(!new)>(s: seq<T>, p: T -> bool)
    ensures IsSubsequence(Filter(s, p), s)
    decreases |s|
  {
    if |s| > 0 {
      FilterIsSubsequence(s[1..], p);
      var f := Filter(s[1..], p);
      if p(s[0]) {
        assert Filter(s, p)[1..] == f;
      } else if |f| > 0 {
        assert f[0] in f;
      }
    }
  }

  /** Filtering a concatenation filters each part. */
  lemma {:induction false} FilterAppend<T(!new)>(a: seq<T>, b: seq<T>, p: T -> bool)
    ensures Filter(a + b, p) == Filter(a, p) + Filter(b, p)
    decreases |a|
  {
    if |a| > 0 {
      assert (a + b)[1..] == a[1..] + b;
      FilterAppend(a[1..], b, p);
    } else {
      assert a + b == b;
    }
  }

  /** The first occurrence of a value of `s` does not move when something is appended. */
  lemma {:induction false} FirstIndexOfPrefix<T>(s: seq<T>, t: seq<T>, x: T)
    requires x in s
    ensures x in s + t && FirstIndex(s + t, x) == FirstIndex(s, x)
    decreases |s|
  {
    assert (s + t)[0] == s[0];
    if s[0] != x {
      assert s == [s[0]] + s[1..];
      assert (s + t)[1..] == s[1..] + t;
      FirstIndexOfPrefix(s[1..], t, x);
    }
  }

  /** Dedup keeps first-occurrence order: an earlier output value first occurs earlier in the input. */
  lemma {:induction false} DedupKeepsFirstOccurrenceOrder<T(!new)>(s: seq<T>)
    ensures forall i, j :: 0 <= i < j < |Dedup(s)| ==>
      FirstIndex(s, Dedup(s)[i]) < FirstIndex(s, Dedup(s)[j])
    decreases |s|
  {
    if |s| > 0 {
      var init := s[..|s| - 1];
      var last := s[|s| - 1];
      assert s == init + [last];
      DedupKeepsFirstOccurrenceOrder(init);
      var r0 := Dedup(init);
      var r := Dedup(s);
      forall y | y in r0
        ensures FirstIndex(s, y) == FirstIndex(init, y) && FirstIndex(s, y) < |s| - 1
      {
        FirstIndexOfPrefix(init, [last], y);
      }
      if last !in r0 {
        assert last !in init;
        assert forall m :: 0 <= m < |s| - 1 ==> s[m] == init[m];
        assert FirstIndex(s, last) == |s| - 1;
        forall i, j | 0 <= i < j < |r|
          ensures FirstIndex(s, r[i]) < FirstIndex(s, r[j])
        {
          assert r[i] == r0[i];
          if j < |r0| { assert r[j] == r0[j]; }
        }
      }
    }
  }

  /** A sequence that is already duplicate-free is its own Dedup. */
  lemma {:induction false} DedupOfDistinct<T(!new)>(s: seq<T>)
    requires NoDups(s)
    ensures Dedup(s) == s
    decreases |s|
  {
    if |s| > 0 {
      var init := s[..|s| - 1];
      assert NoDups(init);
      DedupOfDistinct(init);
      assert s[|s| - 1] !in init;
      assert s == init + [s[|s| - 1]];
    }
  }

  /** Appending values never disturbs what Dedup already produced for the prefix. */
  lemma {:induction false} DedupExtends<T(!new)>(s: seq<T>, t: seq<T>)
    ensures |Dedup(s)| <= |Dedup(s + t)|
    ensures Dedup(s + t)[..|Dedup(s)|] == Dedup(s)
    decreases |t|
  {
    if |t| == 0 {
      assert s + t == s;
    } else {
      var t0 := t[..|t| - 1];
      DedupExtends(s, t0);
      assert s + t == (s + t0) + [t[|t| - 1]];
      assert (s + t)[..|s + t| - 1] == s + t0;
    }
  }

  /** Deduplicating a union whose first part is already distinct starts with that part unchanged. */
  lemma DedupUnionKeepsPrefix<T(!new)>(a: seq<T>, b: seq<T>)
    requires NoDups(a)
    ensures |a| <= |Dedup(a + b)| && Dedup(a + b)[..|a|] == a
  {
    DedupOfDistinct(a);
    DedupExtends(a, b);
  }
}
