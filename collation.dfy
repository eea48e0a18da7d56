/**
  The collation create_index.py takes from the C library: locale.strcoll
  under the Hungarian locale. Its rules are not visible here, so the model
  takes the comparator as a parameter and assumes only what any collation
  gives a sort: it is a total preorder.
 */
module Collation {

  /** strcoll(a, b): negative, zero or positive as a sorts before, with or after b. */
  type Comparator = (string, string) -> int

  /**
    The comparator behaves as a collation: swapping its arguments swaps
    "before" and "after", and "not after" is transitive.
   */
  ghost predicate IsCollation(cmp: Comparator)
  {
    && (forall a, b :: cmp(a, b) < 0 <==> cmp(b, a) > 0)
    && (forall a, b, c :: cmp(a, b) <= 0 && cmp(b, c) <= 0 ==> cmp(a, c) <= 0)
  }

  /** Every word collates with itself. */
  lemma CollationReflexive(cmp: Comparator, a: string)
    requires IsCollation(cmp)
    ensures cmp(a, a) == 0
  {
    assert cmp(a, a) < 0 <==> cmp(a, a) > 0;
  }

  /** "Sorts before" is transitive. */
  lemma CollationTransitive(cmp: Comparator, a: string, b: string, c: string)
    requires IsCollation(cmp)
    requires cmp(a, b) < 0 && cmp(b, c) < 0
    ensures cmp(a, c) < 0
  {
    assert cmp(a, c) >= 0 ==> cmp(c, a) <= 0;
    assert cmp(c, a) <= 0 ==> cmp(c, b) <= 0;
  }

  /** Any two words are ordered one way or the other. */
  lemma CollationTotal(cmp: Comparator, a: string, b: string)
    requires IsCollation(cmp)
    ensures cmp(a, b) <= 0 || cmp(b, a) <= 0
  {
  }

  /** The order a sort under the comparator leaves: no word collates after a later one. */
  predicate Sorted(cmp: Comparator, s: seq<string>)
  {
    forall i, j :: 0 <= i < j < |s| ==> cmp(s[i], s[j]) <= 0
  }

  /**
    Inserts w into a sorted list after every word that does not collate
    after it, one step of a stable insertion sort.
   */
  method InsertSorted(cmp: Comparator, s: seq<string>, w: string) returns (r: seq<string>)
    requires IsCollation(cmp) && Sorted(cmp, s)
    ensures Sorted(cmp, r)
    ensures multiset(r) == multiset(s) + multiset{w}
  {
    var i := 0;
    while i < |s| && cmp(w, s[i]) >= 0
      invariant 0 <= i <= |s|
      invariant forall j :: 0 <= j < i ==> cmp(s[j], w) <= 0
    {
      i := i + 1;
    }
    if i < |s| {
      forall k | i <= k < |s|
        ensures cmp(w, s[k]) <= 0
      {
        assert cmp(s[i], s[k]) <= 0 by { CollationReflexive(cmp, s[i]); }
      }
    }
    r := s[..i] + [w] + s[i..];
    InsertAtSplit(cmp, s, w, i);
    assert s == s[..i] + s[i..];
  }

  /** Placing w where everything before it does not collate after it, and it does not collate after anything behind it, keeps the list sorted. */
  lemma InsertAtSplit(cmp: Comparator, s: seq<string>, w: string, i: nat)
    requires i <= |s| && Sorted(cmp, s)
    requires forall j :: 0 <= j < i ==> cmp(s[j], w) <= 0
    requires forall k :: i <= k < |s| ==> cmp(w, s[k]) <= 0
    ensures Sorted(cmp, s[..i] + [w] + s[i..])
  {
    var r := s[..i] + [w] + s[i..];
    forall j, k | 0 <= j < k < |r|
      ensures cmp(r[j], r[k]) <= 0
    {
      if k == i {
        assert r[j] == s[j];
      } else if j == i {
        assert r[k] == s[k - 1];
      } else if k < i {
        assert r[j] == s[j] && r[k] == s[k];
      } else if j < i {
        assert r[j] == s[j] && r[k] == s[k - 1];
      } else {
        assert r[j] == s[j - 1] && r[k] == s[k - 1];
      }
    }
  }

  /**
    sorted(words, key=cmp_to_key(strcoll)) for a set: the words, each once,
    in an order the comparator accepts. The order in which the set hands
    out its elements is not specified, and neither is the order this picks.
   */
  method SortByCollation(cmp: Comparator, words: set<string>) returns (sorted: seq<string>)
    requires IsCollation(cmp)
    ensures Sorted(cmp, sorted)
    ensures multiset(sorted) == multiset(words)
  {
    sorted := [];
    var rest := words;
    while rest != {}
      invariant rest <= words
      invariant Sorted(cmp, sorted)
      invariant multiset(sorted) == multiset(words - rest)
      decreases |rest|
    {
      var w :| w in rest;
      sorted := InsertSorted(cmp, sorted, w);
      assert words - (rest - {w}) == (words - rest) + {w};
      rest := rest - {w};
    }
  }

  /** A sorted enumeration of a set names every word of the set exactly once. */
  lemma SortedEnumeration(sorted: seq<string>, words: set<string>)
    requires multiset(sorted) == multiset(words)
    ensures |sorted| == |words|
    ensures forall w :: w in sorted <==> w in words
    ensures forall i, j :: 0 <= i < j < |sorted| ==> sorted[i] != sorted[j]
  {
    assert |multiset(sorted)| == |sorted|;
    forall w ensures w in sorted <==> w in words {
      assert w in sorted <==> w in multiset(sorted);
    }
    forall i, j | 0 <= i < j < |sorted|
      ensures sorted[i] != sorted[j]
    {
      RepeatCounted(sorted, i, j);
    }
  }

  /** A word standing at two positions of a list is counted twice by its multiset. */
  lemma RepeatCounted(s: seq<string>, i: nat, j: nat)
    requires i < j < |s|
    ensures s[i] == s[j] ==> multiset(s)[s[i]] >= 2
  {
    var w := s[i];
    var rest := s[..i] + s[i + 1..];
    assert s == s[..i] + [w] + s[i + 1..];
    assert multiset(s) == multiset(rest) + multiset{w};
    assert rest[j - 1] == s[j];
  }
}
