/**
  Order-preserving filtering of a sequence by a predicate, the shape shared by
  `Array.prototype.filter` in `getJobs` and by the flagged-job collection.
 */
module Sequences {

  /** The elements of `s` that satisfy `p`, in their original order. */
  function Filter<T>(s: seq<T>, p: T -> bool): (r: seq<T>)
    ensures |r| <= |s|
    ensures forall x :: x in r ==> x in s && p(x)
    decreases |s|
  {
    if s == [] then [] else (if p(s[0]) then [s[0]] else []) + Filter(s[1..], p)
  }

  /** Nothing that satisfies `p` is dropped. */
  lemma {:induction false} FilterKeeps<T>(s: seq<T>, p: T -> bool, x: T)
    requires x in s && p(x)
    ensures x in Filter(s, p)
    decreases |s|
  {
    if s[0] != x {
      FilterKeeps(s[1..], p, x);
    }
  }

  /** Membership in the filtered sequence, both directions. */
  lemma FilterMembership<T>(s: seq<T>, p: T -> bool)
    ensures forall x :: x in Filter(s, p) <==> x in s && p(x)
  {
    forall x | x in s && p(x) ensures x in Filter(s, p) {
      FilterKeeps(s, p, x);
    }
  }

  /** Filtering distributes over concatenation: relative order is kept. */
  lemma {:induction false} FilterAppend<T>(a: seq<T>, b: seq<T>, p: T -> bool)
    ensures Filter(a + b, p) == Filter(a, p) + Filter(b, p)
    decreases |a|
  {
    if a == [] {
      assert a + b == b;
    } else {
      assert (a + b)[1..] == a[1..] + b;
      FilterAppend(a[1..], b, p);
    }
  }

  /** The result is the sub-multiset of the input made of the elements satisfying `p`. */
  lemma {:induction false} FilterCount<T>(s: seq<T>, p: T -> bool, x: T)
    ensures multiset(Filter(s, p))[x] == if p(x) then multiset(s)[x] else 0
    decreases |s|
  {
    if s != [] {
      FilterCount(s[1..], p, x);
      assert s == [s[0]] + s[1..];
    }
  }

  /** Filtering two permutations of one another gives permutations of one another. */
  lemma FilterPermutation<T>(a: seq<T>, b: seq<T>, p: T -> bool)
    requires multiset(a) == multiset(b)
    ensures multiset(Filter(a, p)) == multiset(Filter(b, p))
  {
    var fa, fb := multiset(Filter(a, p)), multiset(Filter(b, p));
    forall x ensures fa[x] == fb[x] {
      FilterCount(a, p, x);
      FilterCount(b, p, x);
    }
    MultisetExtensionality(fa, fb);
  }

  /**
    Two multisets with the same count for every element are equal. Stated
    separately: over a type parameter the verifier does not draw this from a
    `forall` statement in the caller.
   */
  lemma MultisetExtensionality<T>(m1: multiset<T>, m2: multiset<T>)
    requires forall x :: m1[x] == m2[x]
    ensures m1 == m2
  {
  }

  /** Filtering by a stronger predicate keeps a sub-multiset of what the weaker one keeps. */
  lemma {:induction false} FilterStronger<T>(s: seq<T>, p: T -> bool, q: T -> bool)
    requires forall x :: x in s && p(x) ==> q(x)
    ensures multiset(Filter(s, p)) <= multiset(Filter(s, q))
    decreases |s|
  {
    if s != [] {
      FilterStronger(s[1..], p, q);
    }
  }

  /** When every element satisfies `p`, filtering is the identity. */
  lemma {:induction false} FilterAll<T>(s: seq<T>, p: T -> bool)
    requires forall x :: x in s ==> p(x)
    ensures Filter(s, p) == s
    decreases |s|
  {
    if s != [] {
      FilterAll(s[1..], p);
      assert s == [s[0]] + s[1..];
    }
  }
}
