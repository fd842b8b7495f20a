/**
 * Order-preserving selection from a sequence (Python's `[x for x in s if p(x)]`),
 * the subsequence relation it establishes, and counting over distinct keys.
 */
module Sequences {

  /** The elements of `s` that satisfy `p`, in their original order. */
  function Select<T>(s: seq<T>, p: T -> bool): (r: seq<T>)
    ensures |r| <= |s|
    ensures forall k :: 0 <= k < |r| ==> p(r[k])
    decreases |s|
  {
    if s == [] then []
    else (if p(s[0]) then [s[0]] else []) + Select(s[1..], p)
  }

  /** `r` can be obtained from `s` by deleting elements, keeping the order of the rest. */
  predicate IsSubsequence<T(==)>(r: seq<T>, s: seq<T>)
    decreases |s|
  {
    if r == [] then true
    else if s == [] then false
    else (r[0] == s[0] && IsSubsequence(r[1..], s[1..])) || IsSubsequence(r, s[1..])
  }

  /** No element occurs twice in `s`. */
  predicate NoDuplicates<T(==)>(s: seq<T>) {
    forall i, j :: 0 <= i < j < |s| ==> s[i] != s[j]
  }

  /** The total number of occurrences in `xs` of the keys listed in `keys`. */
  function SumCounts<T(==)>(xs: seq<T>, keys: seq<T>): nat
    decreases |keys|
  {
    if keys == [] then 0 else multiset(xs)[keys[0]] + SumCounts(xs, keys[1..])
  }

  // ---------------------------------------------------------------------------
  // Selection

  /** A non-empty sequence is its head followed by its tail. */
  lemma HeadTail<T>(s: seq<T>)
    requires s != []
    ensures [s[0]] + s[1..] == s
  {
  }

  /** Cutting a sequence at `k` and gluing the pieces back gives the sequence. */
  lemma Reassemble<T>(s: seq<T>, k: nat)
    requires k <= |s|
    ensures s[..k] + s[k..] == s
  {
  }

  /** A non-empty sequence is its front followed by its last element. */
  lemma InitLast<T>(s: seq<T>)
    requires s != []
    ensures s[..|s| - 1] + [s[|s| - 1]] == s
  {
  }

  /** The head and the tail of a concatenation whose left part is non-empty. */
  lemma ConsAppend<T>(a: seq<T>, b: seq<T>)
    requires a != []
    ensures (a + b)[0] == a[0] && (a + b)[1..] == a[1..] + b
  {
  }

  /** The head and the tail of a sequence built from one element and a rest. */
  lemma ConsParts<T>(x: T, r: seq<T>)
    ensures ([x] + r)[0] == x && ([x] + r)[1..] == r
  {
  }

  /** The front and the last element of a sequence built from one element and a non-empty rest. */
  lemma ConsInitLast<T>(x: T, r: seq<T>)
    requires r != []
    ensures ([x] + r)[..|r|] == [x] + r[..|r| - 1]
    ensures ([x] + r)[|r|] == r[|r| - 1]
  {
  }

  /** A sequence is its part before `k`, its element at `k`, and its part after `k`. */
  lemma CutAt<T>(s: seq<T>, k: nat)
    requires k < |s|
    ensures s[..k] + ([s[k]] + s[k + 1..]) == s
  {
  }

  /** A sequence with one more element at the end, cut around position `k`. */
  lemma SnocAround<T>(s: seq<T>, k: nat, m: T, x: T)
    requires k < |s| && s[k] == m
    ensures s + [x] == s[..k] + ([m] + (s[k + 1..] + [x]))
  {
  }

  /** Concatenation is associative. */
  lemma AppendAssoc<T>(a: seq<T>, b: seq<T>, c: seq<T>)
    ensures a + (b + c) == (a + b) + c
  {
  }

  /** The empty sequence is a right unit of concatenation. */
  lemma AppendEmpty<T>(a: seq<T>)
    ensures a + [] == a
  {
  }

  /** Slices of a sequence with one more element at the end, up to and after position `k`. */
  lemma SnocSlices<T>(s: seq<T>, x: T, k: nat)
    requires k < |s|
    ensures (s + [x])[..k] == s[..k]
    ensures (s + [x])[k + 1..] == s[k + 1..] + [x]
  {
  }

  /** Selection keeps the relative order of the elements it keeps. */
  lemma {:induction false} SelectIsSubsequence<T>(s: seq<T>, p: T -> bool)
    ensures IsSubsequence(Select(s, p), s)
    decreases |s|
  {
    if s != [] {
      SelectIsSubsequence(s[1..], p);
      var r := Select(s, p);
      if p(s[0]) {
        assert r[0] == s[0] && r[1..] == Select(s[1..], p);
      } else {
        assert r == Select(s[1..], p);
      }
    }
  }

  /** Selection keeps every occurrence of a satisfying element and drops every other. */
  lemma {:induction false} SelectCounts<T>(s: seq<T>, p: T -> bool)
    ensures forall x :: multiset(Select(s, p))[x] == if p(x) then multiset(s)[x] else 0
    decreases |s|
  {
    if s != [] {
      SelectCounts(s[1..], p);
      assert s == [s[0]] + s[1..];
      assert multiset(s) == multiset([s[0]]) + multiset(s[1..]);
    }
  }

  /** Selection depends only on which elements satisfy the condition. */
  lemma {:induction false} SelectSameCondition<T>(s: seq<T>, p: T -> bool, q: T -> bool)
    requires forall x :: p(x) == q(x)
    ensures Select(s, p) == Select(s, q)
    decreases |s|
  {
    if s != [] {
      SelectSameCondition(s[1..], p, q);
    }
  }

  /** Selecting by `p` and then by `q` is selecting once by their conjunction. */
  lemma {:induction false} SelectTwice<T>(s: seq<T>, p: T -> bool, q: T -> bool, both: T -> bool)
    requires forall x :: both(x) == (p(x) && q(x))
    ensures Select(Select(s, p), q) == Select(s, both)
    decreases |s|
  {
    if s != [] {
      SelectTwice(s[1..], p, q, both);
      if p(s[0]) {
        assert Select(s, p) == [s[0]] + Select(s[1..], p);
        assert Select(s, p)[1..] == Select(s[1..], p);
      } else {
        assert Select(s, p) == Select(s[1..], p);
      }
    }
  }

  /** An element is selected exactly when it occurs in `s` and satisfies `p`. */
  lemma SelectMembership<T>(s: seq<T>, p: T -> bool)
    ensures forall x :: x in Select(s, p) <==> x in s && p(x)
  {
    SelectCounts(s, p);
    forall x
      ensures x in Select(s, p) <==> x in s && p(x)
    {
      assert x in Select(s, p) <==> multiset(Select(s, p))[x] > 0;
      assert x in s <==> multiset(s)[x] > 0;
    }
  }

  /** Selecting with a condition every element meets returns the whole sequence. */
  lemma {:induction false} SelectEverything<T>(s: seq<T>, p: T -> bool)
    requires forall k :: 0 <= k < |s| ==> p(s[k])
    ensures Select(s, p) == s
    decreases |s|
  {
    if s != [] {
      SelectEverything(s[1..], p);
    }
  }

  /** Selection distributes over concatenation. */
  lemma {:induction false} SelectAppend<T>(a: seq<T>, b: seq<T>, p: T -> bool)
    ensures Select(a + b, p) == Select(a, p) + Select(b, p)
    decreases |a|
  {
    if a != [] {
      assert (a + b)[0] == a[0];
      assert (a + b)[1..] == a[1..] + b;
      SelectAppend(a[1..], b, p);
    } else {
      assert a + b == b;
    }
  }

  // ---------------------------------------------------------------------------
  // Counting over distinct keys

  /** One more element adds one to the sum exactly when it is among the keys. */
  lemma {:induction false} SumCountsSnoc<T>(xs: seq<T>, x: T, keys: seq<T>)
    requires NoDuplicates(keys)
    ensures SumCounts(xs + [x], keys) == SumCounts(xs, keys) + (if x in keys then 1 else 0)
    decreases |keys|
  {
    if keys != [] {
      assert multiset(xs + [x]) == multiset(xs) + multiset{x};
      SumCountsSnoc(xs, x, keys[1..]);
      assert x in keys <==> x == keys[0] || x in keys[1..];
    }
  }

  /**
   * When the keys are distinct and cover every element of `xs`, the per-key
   * occurrence counts add up to the length of `xs`.
   */
  lemma {:induction false} SumCountsPartition<T>(xs: seq<T>, keys: seq<T>)
    requires NoDuplicates(keys)
    requires forall k :: 0 <= k < |xs| ==> xs[k] in keys
    ensures SumCounts(xs, keys) == |xs|
    decreases |xs|
  {
    if xs == [] {
      SumCountsOfNothing(keys);
    } else {
      var init := xs[..|xs| - 1];
      assert xs == init + [xs[|xs| - 1]];
      SumCountsPartition(init, keys);
      SumCountsSnoc(init, xs[|xs| - 1], keys);
    }
  }

  /** No element, no occurrences. */
  lemma {:induction false} SumCountsOfNothing<T>(keys: seq<T>)
    ensures SumCounts([], keys) == 0
    decreases |keys|
  {
    if keys != [] {
      SumCountsOfNothing(keys[1..]);
    }
  }
}
