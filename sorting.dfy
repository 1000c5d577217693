/** Go's sort.Sort, as the ranked lists use it: reorder a sequence so that no element comes after one
    it is `less` than. sort.Sort is library code; it is modelled here by an insertion sort, and the
    lemmas below say what any sort.Sort result shares with it. */
module Sorting {

  ghost predicate Irreflexive<T(!new)>(less: (T, T) -> bool) {
    forall a :: !less(a, a)
  }

  ghost predicate Transitive<T(!new)>(less: (T, T) -> bool) {
    forall a, b, c :: less(a, b) && less(b, c) ==> less(a, c)
  }

  /** A strict partial order, the least sort.Sort needs of a Less method. */
  ghost predicate StrictOrder<T(!new)>(less: (T, T) -> bool) {
    Irreflexive(less) && Transitive(less)
  }

  /** Any two different values are ordered: the order is total. */
  ghost predicate Connected<T(!new)>(less: (T, T) -> bool) {
    forall a, b :: a != b ==> less(a, b) || less(b, a)
  }

  /** No element is `less` than one before it: the postcondition of sort.Sort. */
  predicate SortedBy<T>(s: seq<T>, less: (T, T) -> bool) {
    forall i, j :: 0 <= i < j < |s| ==> !less(s[j], s[i])
  }

  predicate StrictlySortedBy<T>(s: seq<T>, less: (T, T) -> bool) {
    forall i, j :: 0 <= i < j < |s| ==> less(s[i], s[j])
  }

  predicate Distinct<T(==)>(s: seq<T>) {
    forall i, j :: 0 <= i < j < |s| ==> s[i] != s[j]
  }

  /** The set of a sequence's elements. */
  function Elements<T(!new)>(s: seq<T>): (r: set<T>)
    ensures forall x :: x in r <==> x in s
  {
    set x | x in s
  }

  /** Puts `x` in front of the first element it is `less` than. */
  function Insert<T>(s: seq<T>, x: T, less: (T, T) -> bool): (r: seq<T>)
    ensures multiset(r) == multiset(s) + multiset{x}
  {
    if s == [] then [x]
    else if less(x, s[0]) then [x] + s
    else
      assert s == [s[0]] + s[1..];
      [s[0]] + Insert(s[1..], x, less)
  }

  /** The sorted permutation that stands for the result of sort.Sort. */
  function SortBy<T>(s: seq<T>, less: (T, T) -> bool): (r: seq<T>)
    ensures multiset(r) == multiset(s)
  {
    if s == [] then []
    else
      assert s == s[..|s| - 1] + [s[|s| - 1]];
      Insert(SortBy(s[..|s| - 1], less), s[|s| - 1], less)
  }

  /** Sorting keeps exactly the elements of its input. */
  lemma SortByMembers<T>(s: seq<T>, less: (T, T) -> bool)
    ensures forall x :: x in SortBy(s, less) <==> x in s
  {
    var r := SortBy(s, less);
    forall x
      ensures x in r <==> x in s
    {
      assert x in r <==> x in multiset(r);
      assert x in s <==> x in multiset(s);
    }
  }

  /** Updating position `i` commutes with dropping the head. */
  lemma UpdateAfterHead<T>(list: seq<T>, i: nat, v: T)
    requires 0 < i < |list|
    ensures list[1..][i - 1 := v] == list[i := v][1..]
  {
  }

  /** Splicing out position `i` before the last element commutes with taking the last one off. */
  lemma SpliceBeforeLast<T>(list: seq<T>, i: nat)
    requires i < |list| - 1
    ensures list[..|list| - 1][..i] + list[..|list| - 1][i + 1..] + [list[|list| - 1]] == list[..i] + list[i + 1..]
  {
    var init := list[..|list| - 1];
    assert init[..i] == list[..i];
    assert init[i + 1..] + [list[|list| - 1]] == list[i + 1..];
  }

  lemma {:induction false} InsertSorted<T(!new)>(s: seq<T>, x: T, less: (T, T) -> bool)
    requires StrictOrder(less) && SortedBy(s, less)
    ensures SortedBy(Insert(s, x, less), less)
  {
    if s != [] && !less(x, s[0]) {
      var rest := Insert(s[1..], x, less);
      InsertSorted(s[1..], x, less);
      assert Insert(s, x, less) == [s[0]] + rest;
      forall j | 0 <= j < |rest|
        ensures !less(rest[j], s[0])
      {
        assert rest[j] in multiset(s[1..]) + multiset{x};
        if rest[j] != x {
          assert rest[j] in s[1..];
        }
      }
    }
  }

  /** The model's sort.Sort returns a permutation of its input that is sorted. */
  lemma {:induction false} SortBySorted<T(!new)>(s: seq<T>, less: (T, T) -> bool)
    requires StrictOrder(less)
    ensures SortedBy(SortBy(s, less), less)
  {
    if s != [] {
      SortBySorted(s[..|s| - 1], less);
      InsertSorted(SortBy(s[..|s| - 1], less), s[|s| - 1], less);
    }
  }

  /** An element that is `less` than nothing in a list goes to its end. */
  lemma {:induction false} InsertAtEnd<T>(s: seq<T>, x: T, less: (T, T) -> bool)
    requires forall i :: 0 <= i < |s| ==> !less(x, s[i])
    ensures Insert(s, x, less) == s + [x]
  {
    if s != [] {
      InsertAtEnd(s[1..], x, less);
      assert [s[0]] + (s[1..] + [x]) == s + [x];
    }
  }

  /** Sorting a sorted list leaves it as it is, whether or not the order is total. */
  lemma {:induction false} SortByOfSorted<T>(s: seq<T>, less: (T, T) -> bool)
    requires SortedBy(s, less)
    ensures SortBy(s, less) == s
  {
    if s != [] {
      var init := s[..|s| - 1];
      assert SortedBy(init, less);
      SortByOfSorted(init, less);
      InsertAtEnd(init, s[|s| - 1], less);
      assert init + [s[|s| - 1]] == s;
    }
  }

  /** Under a strict order, strictly sorted is sorted. */
  lemma StrictlySortedIsSorted<T(!new)>(s: seq<T>, less: (T, T) -> bool)
    requires StrictOrder(less) && StrictlySortedBy(s, less)
    ensures SortedBy(s, less)
  {
  }

  lemma {:induction false} DistinctCount<T>(s: seq<T>, x: T)
    requires Distinct(s)
    ensures multiset(s)[x] <= 1
  {
    if s != [] {
      assert s == [s[0]] + s[1..];
      DistinctCount(s[1..], x);
      if x == s[0] {
        assert x !in s[1..];
      }
    }
  }

  lemma RepeatedCount<T>(s: seq<T>, i: nat, j: nat)
    requires i < j < |s| && s[i] == s[j]
    ensures multiset(s)[s[i]] >= 2
  {
    assert s == s[..j] + [s[j]] + s[j + 1..];
    assert s[i] in s[..j];
  }

  /** Reordering keeps the elements distinct. */
  lemma DistinctPermutation<T>(s: seq<T>, t: seq<T>)
    requires Distinct(s) && multiset(s) == multiset(t)
    ensures Distinct(t)
  {
    forall i, j | 0 <= i < j < |t|
      ensures t[i] != t[j]
    {
      if t[i] == t[j] {
        RepeatedCount(t, i, j);
        DistinctCount(s, t[i]);
      }
    }
  }

  /** Under a total order, a sorted list of distinct elements is strictly increasing. */
  lemma SortedDistinctIsStrict<T(!new)>(s: seq<T>, less: (T, T) -> bool)
    requires Connected(less) && SortedBy(s, less) && Distinct(s)
    ensures StrictlySortedBy(s, less)
  {
  }

  /** Under a strict total order a strictly sorted list is determined by its elements. This is why
      a sort that is not stable, such as sort.Sort, still has only one possible result on a list of
      distinct elements: the insertion sort stands for it without loss. */
  lemma {:induction false} StrictlySortedUnique<T(!new)>(a: seq<T>, b: seq<T>, less: (T, T) -> bool)
    requires StrictOrder(less)
    requires StrictlySortedBy(a, less) && StrictlySortedBy(b, less)
    requires forall x :: x in a <==> x in b
    ensures a == b
  {
    assert a != [] ==> a[0] in a;
    assert b != [] ==> b[0] in b;
    if a != [] {
      var k :| 0 <= k < |b| && b[k] == a[0];
      var m :| 0 <= m < |a| && a[m] == b[0];
      assert a[0] == b[0];
      forall x
        ensures x in a[1..] <==> x in b[1..]
      {
        if x in a[1..] {
          var k :| 1 <= k < |a| && a[k] == x;
          assert less(a[0], a[k]);
          assert x in b;
        }
        if x in b[1..] {
          var k :| 1 <= k < |b| && b[k] == x;
          assert less(b[0], b[k]);
          assert x in a;
        }
      }
      StrictlySortedUnique(a[1..], b[1..], less);
      assert a == [a[0]] + a[1..] && b == [b[0]] + b[1..];
    }
  }

  /** Sorting a list of distinct elements under a strict total order gives the one strictly sorted
      list holding exactly those elements. */
  lemma SortByStrict<T(!new)>(s: seq<T>, less: (T, T) -> bool)
    requires StrictOrder(less) && Connected(less) && Distinct(s)
    ensures StrictlySortedBy(SortBy(s, less), less)
    ensures forall x :: x in SortBy(s, less) <==> x in s
  {
    var r := SortBy(s, less);
    SortBySorted(s, less);
    DistinctPermutation(s, r);
    SortedDistinctIsStrict(r, less);
    SortByMembers(s, less);
  }
}
