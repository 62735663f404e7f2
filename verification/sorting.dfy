/** Ascending sort of a list of ints, as `list.sort()` leaves it. */
module Sorting {
  import opened Seqs

  /** Places `x` into an already sorted sequence. */
  function Insert(x: int, s: seq<int>): (r: seq<int>)
    requires Sorted(s)
    ensures Sorted(r)
    ensures multiset(r) == multiset(s) + multiset{x}
    ensures r[0] == x || (s != [] && r[0] == s[0])
  {
    if s == [] || x <= s[0] then
      SortedCons(x, s);
      [x] + s
    else
      var rest := Insert(x, s[1..]);
      SortedCons(s[0], rest);
      assert s == [s[0]] + s[1..];
      [s[0]] + rest
  }

  /** Prepending a value no larger than the head keeps a sequence sorted. */
  lemma SortedCons(h: int, t: seq<int>)
    requires Sorted(t)
    requires t == [] || h <= t[0]
    ensures Sorted([h] + t)
  {
  }

  /** The ascending rearrangement of `s`. */
  function Sort(s: seq<int>): (r: seq<int>)
    ensures Sorted(r)
    ensures multiset(r) == multiset(s)
  {
    if s == [] then []
    else
      assert s == [s[0]] + s[1..];
      Insert(s[0], Sort(s[1..]))
  }

  /** Sorting only sees the multiset of its input: any two arrival orders of
      the same values sort to the same list. */
  lemma SortOrderIndependent(a: seq<int>, b: seq<int>)
    requires multiset(a) == multiset(b)
    ensures Sort(a) == Sort(b)
  {
    SortedUnique(Sort(a), Sort(b));
  }

  /** `Sort(s)` is exactly the sorted rearrangement of `s`: a sequence is
      the result of sorting `s` if and only if it is sorted and has the
      elements of `s`, counted with repetition. */
  lemma SortCharacterized(s: seq<int>, t: seq<int>)
    ensures Sort(s) == t <==> Sorted(t) && multiset(t) == multiset(s)
  {
    if Sorted(t) && multiset(t) == multiset(s) {
      SortedUnique(Sort(s), t);
    }
  }
}
