/** Sequence vocabulary shared by the scanner model: orderings, duplicate
    freedom, index permutations and a flat map over per-element pieces. */
module Seqs {

  /** Non-decreasing order, the order `list.sort()` leaves a list of ints in. */
  predicate Sorted(s: seq<int>)
  {
    forall i, j :: 0 <= i < j < |s| ==> s[i] <= s[j]
  }

  /** Strictly increasing order. */
  predicate StrictlyAscending(s: seq<int>)
  {
    forall i, j :: 0 <= i < j < |s| ==> s[i] < s[j]
  }

  /** No value occurs twice. */
  predicate NoDuplicates<T(==)>(s: seq<T>)
  {
    forall i, j :: 0 <= i < j < |s| ==> s[i] != s[j]
  }

  /** The position of the first occurrence of `x` in `s`. */
  function FirstIndex<T(==)>(s: seq<T>, x: T): (k: nat)
    requires x in s
    ensures k < |s| && s[k] == x && x !in s[..k]
  {
    if s[0] == x then 0 else 1 + FirstIndex(s[1..], x)
  }

  /** Appending after `s` does not move the first occurrence of a value of `s`. */
  lemma {:induction false} FirstIndexAppend<T>(s: seq<T>, t: seq<T>, x: T)
    requires x in s
    ensures FirstIndex(s + t, x) == FirstIndex(s, x)
  {
    if s[0] != x {
      assert (s + t)[1..] == s[1..] + t;
      FirstIndexAppend(s[1..], t, x);
    }
  }

  /** The indices `0, 1, ..., n-1` in order. */
  function Indices(n: nat): (r: seq<nat>)
    ensures |r| == n
    ensures forall k :: 0 <= k < n ==> r[k] == k
  {
    seq(n, k => k)
  }

  /** `order` lists every index below `n` exactly once, in some order. */
  predicate IsIndexPermutation(order: seq<nat>, n: nat)
  {
    multiset(order) == multiset(Indices(n))
  }

  /** Every entry of an index permutation is a valid index, and it has `n` entries. */
  lemma {:induction false} IndexPermutationBounds(order: seq<nat>, n: nat)
    requires IsIndexPermutation(order, n)
    ensures |order| == n
    ensures forall k :: 0 <= k < |order| ==> order[k] < n
  {
    assert |multiset(order)| == |multiset(Indices(n))|;
    forall k | 0 <= k < |order|
      ensures order[k] < n
    {
      assert order[k] in multiset(order);
      assert order[k] in multiset(Indices(n));
      assert order[k] in Indices(n);
    }
  }

  /** The elements of `s` at positions `order`, in the order given. */
  function Pick<T>(s: seq<T>, order: seq<nat>): (r: seq<T>)
    requires forall k :: 0 <= k < |order| ==> order[k] < |s|
    ensures |r| == |order|
    ensures forall k :: 0 <= k < |order| ==> r[k] == s[order[k]]
  {
    seq(|order|, k requires 0 <= k < |order| => s[order[k]])
  }

  /** The one-element piece of `s` at index `k`, for use with `FlatMap`. */
  function At<T>(s: seq<T>): nat -> seq<T>
  {
    (k: nat) => if k < |s| then [s[k]] else []
  }

  /** Picking is a flat map of one-element pieces. */
  lemma {:induction false} PickIsFlatMap<T>(s: seq<T>, order: seq<nat>)
    requires forall k :: 0 <= k < |order| ==> order[k] < |s|
    ensures Pick(s, order) == FlatMap(At(s), order)
    decreases |order|
  {
    if order != [] {
      var init := order[..|order| - 1];
      PickIsFlatMap(s, init);
      assert Pick(s, order) == Pick(s, init) + [s[order[|order| - 1]]];
    }
  }

  /** Reordering a sequence by an index permutation keeps its multiset. */
  lemma PickPermutation<T>(s: seq<T>, order: seq<nat>)
    requires IsIndexPermutation(order, |s|)
    ensures forall k :: 0 <= k < |order| ==> order[k] < |s|
    ensures multiset(Pick(s, order)) == multiset(s)
  {
    IndexPermutationBounds(order, |s|);
    PickIsFlatMap(s, order);
    PickIsFlatMap(s, Indices(|s|));
    FlatMapRespectsMultiset(At(s), order, Indices(|s|));
    assert Pick(s, Indices(|s|)) == s;
  }

  /** The concatenation of the pieces `f(x)`, in the order of `s`; built
      from the back, as a loop appending one element's piece at a time. */
  function FlatMap<T, U>(f: T -> seq<U>, s: seq<T>): seq<U>
  {
    if s == [] then [] else FlatMap(f, s[..|s| - 1]) + f(s[|s| - 1])
  }

  lemma FlatMapSingleton<T, U>(f: T -> seq<U>, x: T)
    ensures FlatMap(f, [x]) == f(x)
  {
    assert [x][..0] == [];
  }

  lemma {:induction false} FlatMapAppend<T, U>(f: T -> seq<U>, a: seq<T>, b: seq<T>)
    ensures FlatMap(f, a + b) == FlatMap(f, a) + FlatMap(f, b)
    decreases |b|
  {
    if b != [] {
      assert (a + b)[..|a + b| - 1] == a + b[..|b| - 1];
      FlatMapAppend(f, a, b[..|b| - 1]);
    } else {
      assert a + b == a;
    }
  }

  /** A value is in the flat map exactly when it is in the piece of some element. */
  lemma {:induction false} FlatMapMembers<T, U>(f: T -> seq<U>, s: seq<T>, u: U)
    ensures u in FlatMap(f, s) <==> exists x :: x in s && u in f(x)
  {
    if s != [] {
      var init := s[..|s| - 1];
      FlatMapMembers(f, init, u);
      assert s == init + [s[|s| - 1]];
      if u in FlatMap(f, s) && u !in FlatMap(f, init) {
        assert s[|s| - 1] in s;
      }
      if exists x :: x in s && u in f(x) {
        var x :| x in s && u in f(x);
        if x != s[|s| - 1] {
          assert x in init;
        }
      }
    }
  }

  /** The multiset of a flat map depends only on the multiset of its input,
      so the order in which elements arrive does not change it. */
  lemma {:induction false} FlatMapRespectsMultiset<T, U>(f: T -> seq<U>, a: seq<T>, b: seq<T>)
    requires multiset(a) == multiset(b)
    ensures multiset(FlatMap(f, a)) == multiset(FlatMap(f, b))
    decreases |a|
  {
    if a == [] {
      assert |multiset(b)| == 0;
    } else {
      var x := a[0];
      assert x in multiset(b);
      var i :| 0 <= i < |b| && b[i] == x;
      var rest := b[..i] + b[i + 1..];
      assert b == b[..i] + [x] + b[i + 1..];
      assert a == [x] + a[1..];
      assert multiset(b) == multiset(b[..i]) + multiset([x]) + multiset(b[i + 1..]);
      assert multiset(a) == multiset([x]) + multiset(a[1..]);
      assert multiset(rest) == multiset(b[..i]) + multiset(b[i + 1..]);
      assert multiset(a[1..]) == multiset(a) - multiset{x};
      assert multiset(rest) == multiset(b) - multiset{x};
      FlatMapRespectsMultiset(f, a[1..], rest);
      FlatMapAppend(f, [x], a[1..]);
      FlatMapAppend(f, b[..i], b[i + 1..]);
      FlatMapAppend(f, b[..i] + [x], b[i + 1..]);
      FlatMapAppend(f, b[..i], [x]);
    }
  }

  /** A sequence without duplicates holds each value at most once. */
  lemma {:induction false} DistinctCountsAtMostOne<T>(s: seq<T>, x: T)
    requires NoDuplicates(s)
    ensures multiset(s)[x] <= 1
  {
    if s != [] {
      var init := s[..|s| - 1];
      assert s == init + [s[|s| - 1]];
      assert NoDuplicates(init);
      DistinctCountsAtMostOne(init, x);
      if x == s[|s| - 1] {
        assert x !in init;
      }
    }
  }

  /** A value seen at two positions is counted at least twice. */
  lemma RepeatCountsTwice<T>(s: seq<T>, i: nat, j: nat)
    requires i < j < |s| && s[i] == s[j]
    ensures multiset(s)[s[i]] >= 2
  {
    assert s == s[..j] + [s[j]] + s[j + 1..];
    assert s[i] in s[..j];
  }

  /** Two duplicate-free sequences with the same members have the same length. */
  lemma DistinctSameMembersSameLength<T>(a: seq<T>, b: seq<T>)
    requires NoDuplicates(a) && NoDuplicates(b)
    requires forall x :: x in a <==> x in b
    ensures |a| == |b|
  {
    assert multiset(a) == multiset(b) by {
      forall x
        ensures multiset(a)[x] == multiset(b)[x]
      {
        DistinctCountsAtMostOne(a, x);
        DistinctCountsAtMostOne(b, x);
        assert x in a <==> x in multiset(a);
        assert x in b <==> x in multiset(b);
      }
    }
    assert |multiset(a)| == |multiset(b)|;
  }

  /** A rearrangement of a duplicate-free sequence is duplicate-free. */
  lemma PermutationKeepsDistinct<T>(a: seq<T>, b: seq<T>)
    requires NoDuplicates(a)
    requires multiset(a) == multiset(b)
    ensures NoDuplicates(b)
  {
    forall i, j | 0 <= i < j < |b|
      ensures b[i] != b[j]
    {
      if b[i] == b[j] {
        RepeatCountsTwice(b, i, j);
        DistinctCountsAtMostOne(a, b[i]);
      }
    }
  }

  /** Splitting a duplicate-free sequence into two parts, counted with
      repetition, leaves each part duplicate-free and the parts disjoint. */
  lemma DistinctSplit<T>(a: seq<T>, b: seq<T>, whole: seq<T>)
    requires NoDuplicates(whole)
    requires multiset(a) + multiset(b) == multiset(whole)
    ensures NoDuplicates(a) && NoDuplicates(b)
    ensures forall x :: x in a ==> x !in b
  {
    forall i, j | 0 <= i < j < |a|
      ensures a[i] != a[j]
    {
      if a[i] == a[j] {
        RepeatCountsTwice(a, i, j);
        DistinctCountsAtMostOne(whole, a[i]);
      }
    }
    forall i, j | 0 <= i < j < |b|
      ensures b[i] != b[j]
    {
      if b[i] == b[j] {
        RepeatCountsTwice(b, i, j);
        DistinctCountsAtMostOne(whole, b[i]);
      }
    }
    forall x | x in a
      ensures x !in b
    {
      assert x in multiset(a);
      if x in b {
        assert x in multiset(b);
        DistinctCountsAtMostOne(whole, x);
      }
    }
  }

  /** Membership in a multiset-preserving split: a value is in the whole
      exactly when it is in one of the parts. */
  lemma SplitMembers<T>(a: seq<T>, b: seq<T>, whole: seq<T>, x: T)
    requires multiset(a) + multiset(b) == multiset(whole)
    ensures x in whole <==> x in a || x in b
  {
    assert x in whole <==> x in multiset(whole);
    assert x in a <==> x in multiset(a);
    assert x in b <==> x in multiset(b);
  }

  /** The head of a sorted sequence is its least element. */
  lemma SortedHeadIsLeast(s: seq<int>, x: int)
    requires Sorted(s)
    requires x in multiset(s)
    ensures s != [] && s[0] <= x
  {
    var i :| 0 <= i < |s| && s[i] == x;
  }

  /** Two sorted sequences with the same elements, counted with repetition,
      are equal: a sorted rearrangement is unique. */
  lemma {:induction false} SortedUnique(a: seq<int>, b: seq<int>)
    requires Sorted(a) && Sorted(b)
    requires multiset(a) == multiset(b)
    ensures a == b
    decreases |a|
  {
    if a == [] {
      assert |multiset(b)| == 0;
    } else {
      assert a[0] in multiset(a);
      SortedHeadIsLeast(b, a[0]);
      assert b[0] in multiset(b);
      SortedHeadIsLeast(a, b[0]);
      SortedTail(a);
      SortedTail(b);
      assert a[0] == b[0];
      assert multiset(a[1..]) == multiset(b[1..]);
      SortedUnique(a[1..], b[1..]);
      assert a[1..] == b[1..];
      assert forall k :: 0 <= k < |a| ==> a[k] == b[k] by {
        forall k | 0 <= k < |a| ensures a[k] == b[k] {
          if k > 0 {
            assert a[k] == a[1..][k - 1] && b[k] == b[1..][k - 1];
          }
        }
      }
    }
  }

  /** Dropping the head keeps a sequence sorted and removes one copy of the
      head from its multiset. */
  lemma SortedTail(s: seq<int>)
    requires Sorted(s) && s != []
    ensures Sorted(s[1..])
    ensures multiset(s[1..]) == multiset(s) - multiset{s[0]}
  {
    assert s == [s[0]] + s[1..];
  }

  /** A sorted sequence without duplicates is strictly ascending. */
  lemma SortedDistinctAscending(s: seq<int>)
    requires Sorted(s) && NoDuplicates(s)
    ensures StrictlyAscending(s)
  {
  }

  /** Two strictly ascending sequences with the same members are equal. */
  lemma StrictlyAscendingUnique(a: seq<int>, b: seq<int>)
    requires StrictlyAscending(a) && StrictlyAscending(b)
    requires forall x :: x in a <==> x in b
    ensures a == b
  {
    assert multiset(a) == multiset(b) by {
      forall x
        ensures multiset(a)[x] == multiset(b)[x]
      {
        DistinctCountsAtMostOne(a, x);
        DistinctCountsAtMostOne(b, x);
        assert x in a <==> x in multiset(a);
        assert x in b <==> x in multiset(b);
      }
    }
    SortedUnique(a, b);
  }
}
