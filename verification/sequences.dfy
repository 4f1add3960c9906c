/** Ordering, sorting and summing over sequences: the pieces the store's
    ORDER BY clauses and the report's group-and-sum steps are built from. */
module Sequences {

  /** `le` compares every two elements and its comparisons chain. */
  ghost predicate TotalPreorder<T(!new)>(le: (T, T) -> bool) {
    && (forall a, b :: le(a, b) || le(b, a))
    && (forall a, b, c :: le(a, b) && le(b, c) ==> le(a, c))
  }

  /** Every earlier element is `le` every later one. */
  ghost predicate SortedBy<T>(s: seq<T>, le: (T, T) -> bool) {
    forall i, j :: 0 <= i < j < |s| ==> le(s[i], s[j])
  }

  /** No element occurs twice. */
  ghost predicate Distinct<T>(s: seq<T>) {
    forall i, j :: 0 <= i < j < |s| ==> s[i] != s[j]
  }

  /** Inserts `x` into the sorted `s` before the first element it is `le` to. */
  function Insert<T(!new)>(x: T, s: seq<T>, le: (T, T) -> bool): (r: seq<T>)
    requires TotalPreorder(le)
    requires SortedBy(s, le)
    ensures SortedBy(r, le)
    ensures multiset(r) == multiset(s) + multiset{x}
    decreases |s|
  {
    if |s| == 0 then [x]
    else if le(x, s[0]) then
      InsertAtFront(x, s, le);
      [x] + s
    else
      var rest := Insert(x, s[1..], le);
      InsertBehindHead(x, s, rest, le);
      [s[0]] + rest
  }

  lemma InsertAtFront<T(!new)>(x: T, s: seq<T>, le: (T, T) -> bool)
    requires TotalPreorder(le)
    requires SortedBy(s, le)
    requires |s| > 0 && le(x, s[0])
    ensures SortedBy([x] + s, le)
  {
    forall j | 0 < j < |[x] + s|
      ensures le(x, ([x] + s)[j])
    {
      if j > 1 {
        assert le(s[0], s[j - 1]);
      }
    }
  }

  lemma InsertBehindHead<T(!new)>(x: T, s: seq<T>, rest: seq<T>, le: (T, T) -> bool)
    requires TotalPreorder(le)
    requires SortedBy(s, le)
    requires |s| > 0 && !le(x, s[0])
    requires SortedBy(rest, le)
    requires multiset(rest) == multiset(s[1..]) + multiset{x}
    ensures SortedBy([s[0]] + rest, le)
    ensures multiset([s[0]] + rest) == multiset(s) + multiset{x}
  {
    assert s == [s[0]] + s[1..];
    forall j | 0 <= j < |rest|
      ensures le(s[0], rest[j])
    {
      assert rest[j] in multiset(rest);
      if rest[j] != x {
        assert rest[j] in multiset(s[1..]);
        var k :| 0 <= k < |s[1..]| && s[1..][k] == rest[j];
        assert s[k + 1] == rest[j];
      }
    }
  }

  /** Insertion sort: a permutation of `s` ordered by `le`. Ties keep no
      particular order, as with an ORDER BY over equal keys. */
  function Sort<T(!new)>(s: seq<T>, le: (T, T) -> bool): (r: seq<T>)
    requires TotalPreorder(le)
    ensures SortedBy(r, le)
    ensures multiset(r) == multiset(s)
    decreases |s|
  {
    if |s| == 0 then []
    else
      assert s == [s[0]] + s[1..];
      Insert(s[0], Sort(s[1..], le), le)
  }

  /** A sequence holding `x` at two positions counts it at least twice. */
  lemma TwoOccurrences<T>(a: seq<T>, i: int, j: int)
    requires 0 <= i < j < |a| && a[i] == a[j]
    ensures multiset(a)[a[i]] >= 2
  {
    assert a == a[..i] + [a[i]] + a[i + 1..j] + [a[j]] + a[j + 1..];
  }

  /** In a sequence without repetitions every element is counted at most once. */
  lemma {:induction false} DistinctCountsOnce<T>(b: seq<T>, x: T)
    requires Distinct(b)
    ensures multiset(b)[x] <= 1
    decreases |b|
  {
    if |b| > 0 {
      var init := b[..|b| - 1];
      assert b == init + [b[|b| - 1]];
      assert Distinct(init);
      DistinctCountsOnce(init, x);
      if x == b[|b| - 1] {
        assert x !in init;
      }
    }
  }

  /** Being free of repetitions survives a permutation. */
  lemma DistinctPermutation<T>(a: seq<T>, b: seq<T>)
    requires multiset(a) == multiset(b)
    requires Distinct(b)
    ensures Distinct(a)
  {
    forall i, j | 0 <= i < j < |a|
      ensures a[i] != a[j]
    {
      if a[i] == a[j] {
        TwoOccurrences(a, i, j);
        DistinctCountsOnce(b, a[i]);
        assert false;
      }
    }
  }

  /** The sum of `f` over the elements of `s`. */
  function SumOf<T>(s: seq<T>, f: T -> real): real
    decreases |s|
  {
    if |s| == 0 then 0.0 else f(s[0]) + SumOf(s[1..], f)
  }

  lemma {:induction false} SumOfConcat<T>(a: seq<T>, b: seq<T>, f: T -> real)
    ensures SumOf(a + b, f) == SumOf(a, f) + SumOf(b, f)
    decreases |a|
  {
    if |a| > 0 {
      assert (a + b)[0] == a[0];
      assert (a + b)[1..] == a[1..] + b;
      SumOfConcat(a[1..], b, f);
    } else {
      assert a + b == b;
    }
  }

  /** Taking one element out of a sum. */
  lemma SumOfRemove<T>(b: seq<T>, k: int, f: T -> real)
    requires 0 <= k < |b|
    ensures SumOf(b, f) == f(b[k]) + SumOf(b[..k] + b[k + 1..], f)
  {
    assert b == b[..k] + ([b[k]] + b[k + 1..]);
    SumOfConcat(b[..k], [b[k]] + b[k + 1..], f);
    SumOfConcat([b[k]], b[k + 1..], f);
    SumOfConcat(b[..k], b[k + 1..], f);
    assert SumOf([b[k]], f) == f(b[k]);
  }

  /** Taking one element out of a sequence takes it out of its multiset. */
  lemma MultisetRemove<T>(b: seq<T>, k: int)
    requires 0 <= k < |b|
    ensures multiset(b[..k] + b[k + 1..]) == multiset(b) - multiset{b[k]}
  {
    assert b == b[..k] + [b[k]] + b[k + 1..];
  }

  /** Matching the head of `a` with an equal element `b[k]` leaves two
      permutations of each other. */
  lemma PermutationTail<T>(a: seq<T>, b: seq<T>, k: int)
    requires multiset(a) == multiset(b)
    requires |a| > 0 && 0 <= k < |b| && b[k] == a[0]
    ensures multiset(a[1..]) == multiset(b[..k] + b[k + 1..])
  {
    MultisetRemove(b, k);
    MultisetRemove(a, 0);
    assert a[..0] + a[1..] == a[1..];
  }

  /** Summing does not depend on the order of the elements. */
  lemma {:induction false} SumOfPermutation<T>(a: seq<T>, b: seq<T>, f: T -> real)
    requires multiset(a) == multiset(b)
    ensures SumOf(a, f) == SumOf(b, f)
    decreases |a|
  {
    if |a| == 0 {
      assert |b| == |multiset(b)| == 0;
    } else {
      assert a[0] in multiset(b);
      var k :| 0 <= k < |b| && b[k] == a[0];
      PermutationTail(a, b, k);
      SumOfPermutation(a[1..], b[..k] + b[k + 1..], f);
      SumOfRemove(b, k, f);
    }
  }
}
