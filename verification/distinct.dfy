/** First-occurrence de-duplication, as `list(dict.fromkeys(xs))` performs it:
    keys enter the dictionary in iteration order and a repeated key is not
    inserted a second time. */
module Distinct {
  import opened Seqs

  /** The distinct values of `s`, each kept at its first occurrence. */
  function Dedup<T(==)>(s: seq<T>): (r: seq<T>)
    ensures NoDuplicates(r)
    ensures forall k :: 0 <= k < |r| ==> r[k] in s
    ensures forall k :: 0 <= k < |s| ==> s[k] in r
    ensures |r| <= |s|
  {
    if s == [] then []
    else
      var kept := Dedup(s[..|s| - 1]);
      var x := s[|s| - 1];
      assert s == s[..|s| - 1] + [x];
      if x in kept then kept else kept + [x]
  }

  /** The kept values appear in the order of their first occurrences in `s`. */
  lemma {:induction false} DedupFirstOccurrenceOrder<T>(s: seq<T>)
    ensures forall i, j :: 0 <= i < j < |Dedup(s)| ==>
      FirstIndex(s, Dedup(s)[i]) < FirstIndex(s, Dedup(s)[j])
  {
    if s != [] {
      var init := s[..|s| - 1];
      var x := s[|s| - 1];
      assert s == init + [x];
      DedupFirstOccurrenceOrder(init);
      var r := Dedup(s);
      var kept := Dedup(init);
      forall y | y in init
        ensures FirstIndex(s, y) == FirstIndex(init, y)
      {
        FirstIndexAppend(init, [x], y);
      }
      forall i, j | 0 <= i < j < |r|
        ensures FirstIndex(s, r[i]) < FirstIndex(s, r[j])
      {
        assert r[i] in kept;
        if j < |kept| {
          assert r[j] == kept[j] && r[i] == kept[i];
        } else {
          assert r[j] == x && x !in init;
          assert FirstIndex(s, x) == |init|;
        }
      }
    }
  }

  /** A sequence that already has no duplicates is left unchanged. */
  lemma {:induction false} DedupOfDistinct<T>(s: seq<T>)
    requires NoDuplicates(s)
    ensures Dedup(s) == s
  {
    if s != [] {
      var init := s[..|s| - 1];
      assert NoDuplicates(init);
      DedupOfDistinct(init);
      assert s[|s| - 1] !in init;
      assert s == init + [s[|s| - 1]];
    }
  }

  /** De-duplicating a second time changes nothing. */
  lemma DedupIdempotent<T>(s: seq<T>)
    ensures Dedup(Dedup(s)) == Dedup(s)
  {
    DedupOfDistinct(Dedup(s));
  }

  /** The positions in `s` where the entries of `r` first occur. */
  function FirstIndices<T(==)>(s: seq<T>, r: seq<T>): (keys: seq<int>)
    requires forall k :: 0 <= k < |r| ==> r[k] in s
    ensures |keys| == |r|
    ensures forall k :: 0 <= k < |r| ==> keys[k] == FirstIndex(s, r[k])
  {
    seq(|r|, k requires 0 <= k < |r| => FirstIndex(s, r[k]) as int)
  }

  /** Ordered by first occurrence in `s`. */
  predicate InFirstOccurrenceOrder<T(==)>(s: seq<T>, r: seq<T>)
    requires forall k :: 0 <= k < |r| ==> r[k] in s
  {
    forall i, j :: 0 <= i < j < |r| ==> FirstIndex(s, r[i]) < FirstIndex(s, r[j])
  }

  /** `Dedup(s)` is the one sequence that holds exactly the values of `s`,
      each once, in the order of their first occurrences: a sequence equals
      it if and only if it has those three properties. */
  lemma DedupCharacterized<T>(s: seq<T>, r: seq<T>)
    ensures r == Dedup(s) <==>
      && (forall k :: 0 <= k < |r| ==> r[k] in s)
      && (forall k :: 0 <= k < |s| ==> s[k] in r)
      && InFirstOccurrenceOrder(s, r)
  {
    DedupFirstOccurrenceOrder(s);
    if && (forall k :: 0 <= k < |r| ==> r[k] in s)
       && (forall k :: 0 <= k < |s| ==> s[k] in r)
       && InFirstOccurrenceOrder(s, r)
    {
      FirstOccurrenceOrderUnique(s, r, Dedup(s));
    }
  }

  /** Two sequences holding exactly the values of `s`, both in first-occurrence
      order, are equal. */
  lemma FirstOccurrenceOrderUnique<T>(s: seq<T>, r: seq<T>, d: seq<T>)
    requires forall k :: 0 <= k < |r| ==> r[k] in s
    requires forall k :: 0 <= k < |d| ==> d[k] in s
    requires forall k :: 0 <= k < |s| ==> s[k] in r && s[k] in d
    requires InFirstOccurrenceOrder(s, r) && InFirstOccurrenceOrder(s, d)
    ensures r == d
  {
    var kr, kd := FirstIndices(s, r), FirstIndices(s, d);
    FirstIndicesSameMembers(s, r, d);
    StrictlyAscendingUnique(kr, kd);
    forall k | 0 <= k < |r|
      ensures r[k] == d[k]
    {
      assert s[kr[k]] == r[k] && s[kd[k]] == d[k];
    }
  }

  lemma FirstIndicesSameMembers<T>(s: seq<T>, r: seq<T>, d: seq<T>)
    requires forall k :: 0 <= k < |r| ==> r[k] in s
    requires forall k :: 0 <= k < |d| ==> d[k] in s
    requires forall k :: 0 <= k < |s| ==> s[k] in r && s[k] in d
    ensures forall x :: x in FirstIndices(s, r) <==> x in FirstIndices(s, d)
  {
    var kr, kd := FirstIndices(s, r), FirstIndices(s, d);
    forall x
      ensures x in kr <==> x in kd
    {
      if x in kr {
        var i :| 0 <= i < |r| && kr[i] == x;
        var j :| 0 <= j < |d| && d[j] == r[i];
        assert kd[j] == x;
      }
      if x in kd {
        var j :| 0 <= j < |d| && kd[j] == x;
        var i :| 0 <= i < |r| && r[i] == d[j];
        assert kr[i] == x;
      }
    }
  }
}
