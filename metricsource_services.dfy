/** The ranked list of pkg/controllers/metricsource (MetricsServices): the MetricsSource objects that
    serve one metric, sorted by priority with the LOWEST first, and by name on a tie. A source is
    identified by its namespace and name, but the namespace takes no part in the order. */
module MetricsourceServices {
  import opened Common
  import opened GoStrings
  import opened Sorting
  import opened MetricsSourceTypes

  /** MetricsServices.Less. */
  function Less(a: MetricsSource, b: MetricsSource): (r: bool)
    ensures r ==> a.spec.priority <= b.spec.priority
    ensures a.spec.priority < b.spec.priority ==> r
  {
    if a.spec.priority < b.spec.priority then true
    else if a.spec.priority > b.spec.priority then false
    else StringLess(a.name, b.name)
  }

  /** Less holds exactly when `a` has the lower priority, or the same priority and the smaller name;
      it is a strict order. */
  lemma LessIsStrictOrder()
    ensures forall a, b :: Less(a, b) <==>
      a.spec.priority < b.spec.priority || (a.spec.priority == b.spec.priority && StringLess(a.name, b.name))
    ensures StrictOrder(Less)
  {
    forall a: MetricsSource
      ensures !Less(a, a)
    {
      StringLessIrreflexive(a.name);
    }
    forall a: MetricsSource, b: MetricsSource, c: MetricsSource | Less(a, b) && Less(b, c)
      ensures Less(a, c)
    {
      if a.spec.priority == b.spec.priority == c.spec.priority {
        StringLessTransitive(a.name, b.name, c.name);
      }
    }
  }

  /** The order is not total: two sources that differ only in their namespace are not ordered, so
      their relative place in a sorted list is whatever the sort leaves. */
  lemma LessIgnoresNamespace(a: MetricsSource, namespace: string)
    ensures !Less(a, a.(namespace := namespace)) && !Less(a.(namespace := namespace), a)
  {
    StringLessIrreflexive(a.name);
  }

  /** sort.Sort on a MetricsServices list. */
  function Sort(list: seq<MetricsSource>): (r: seq<MetricsSource>)
    ensures multiset(r) == multiset(list)
    ensures SortedBy(r, Less)
    ensures forall x :: x in r <==> x in list
  {
    LessIsStrictOrder();
    SortBySorted(list, Less);
    SortByMembers(list, Less);
    SortBy(list, Less)
  }

  predicate KeysUnique(list: seq<MetricsSource>) {
    forall i, j :: 0 <= i < j < |list| ==> NamespacedNamed(list[i]) != NamespacedNamed(list[j])
  }

  predicate HasKey(list: seq<MetricsSource>, nn: NamespacedName) {
    exists i :: 0 <= i < |list| && NamespacedNamed(list[i]) == nn
  }

  /** The source with the same namespace and name replaced, at its place, or the source appended
      if there is none. */
  function ReplaceOrAppend(list: seq<MetricsSource>, s: MetricsSource): (r: seq<MetricsSource>)
    ensures s in r
    ensures forall x :: x in r ==> x in list || x == s
    ensures forall x :: x in list && NamespacedNamed(x) != NamespacedNamed(s) ==> x in r
    ensures |r| == |list| || |r| == |list| + 1
  {
    if list == [] then [s]
    else if NamespacedNamed(list[0]) == NamespacedNamed(s) then [s] + list[1..]
    else [list[0]] + ReplaceOrAppend(list[1..], s)
  }

  /** The list without its last source named `nn`. */
  function RemoveLast(list: seq<MetricsSource>, nn: NamespacedName): (r: seq<MetricsSource>)
    ensures forall x :: x in r ==> x in list
    ensures forall x :: x in list && NamespacedNamed(x) != nn ==> x in r
    ensures |r| == |list| || |r| == |list| - 1
  {
    if list == [] then []
    else if NamespacedNamed(list[|list| - 1]) == nn then list[..|list| - 1]
    else RemoveLast(list[..|list| - 1], nn) + [list[|list| - 1]]
  }

  /** The list that MetricsServices.AddOrUpdateSource leaves. */
  function AfterAddOrUpdate(list: seq<MetricsSource>, s: MetricsSource): (r: seq<MetricsSource>)
    ensures SortedBy(r, Less)
    ensures s in r
    ensures forall x :: x in r ==> x in list || x == s
    ensures forall x :: x in list && NamespacedNamed(x) != NamespacedNamed(s) ==> x in r
  {
    Sort(ReplaceOrAppend(list, s))
  }

  /** The list that MetricsServices.RemoveSource leaves: untouched when no source is named `nn`. */
  function AfterRemove(list: seq<MetricsSource>, nn: NamespacedName): (r: seq<MetricsSource>)
    ensures forall x :: x in r ==> x in list
    ensures forall x :: x in list && NamespacedNamed(x) != nn ==> x in r
  {
    if HasKey(list, nn) then Sort(RemoveLast(list, nn)) else list
  }

  lemma {:induction false} ReplaceAt(list: seq<MetricsSource>, s: MetricsSource, i: nat)
    requires i < |list| && NamespacedNamed(list[i]) == NamespacedNamed(s)
    requires forall j :: 0 <= j < i ==> NamespacedNamed(list[j]) != NamespacedNamed(s)
    ensures ReplaceOrAppend(list, s) == list[i := s]
  {
    if i > 0 {
      ReplaceAt(list[1..], s, i - 1);
      UpdateAfterHead(list, i, s);
    }
  }

  lemma {:induction false} AppendWhenAbsent(list: seq<MetricsSource>, s: MetricsSource)
    requires forall j :: 0 <= j < |list| ==> NamespacedNamed(list[j]) != NamespacedNamed(s)
    ensures ReplaceOrAppend(list, s) == list + [s]
  {
    if list != [] {
      AppendWhenAbsent(list[1..], s);
      assert list == [list[0]] + list[1..];
    }
  }

  lemma {:induction false} RemoveAt(list: seq<MetricsSource>, nn: NamespacedName, i: nat)
    requires i < |list| && NamespacedNamed(list[i]) == nn
    requires forall j :: i < j < |list| ==> NamespacedNamed(list[j]) != nn
    ensures RemoveLast(list, nn) == list[..i] + list[i + 1..]
  {
    var init := list[..|list| - 1];
    if i < |list| - 1 {
      RemoveAt(init, nn, i);
      SpliceBeforeLast(list, i);
    } else {
      assert list[..i] + list[i + 1..] == init;
    }
  }

  /** MetricsServices.AddOrUpdateSource: a scan for the first source with the same namespace and
      name, then a replacement in place or an append, then sort.Sort. */
  method AddOrUpdateSource(list: seq<MetricsSource>, metricSource: MetricsSource) returns (r: seq<MetricsSource>)
    ensures r == AfterAddOrUpdate(list, metricSource)
  {
    var found := -1;
    for i := 0 to |list|
      invariant found == -1
      invariant forall j :: 0 <= j < i ==> NamespacedNamed(list[j]) != NamespacedNamed(metricSource)
    {
      if list[i].name == metricSource.name && list[i].namespace == metricSource.namespace {
        found := i;
        break;
      }
    }
    var updated;
    if found != -1 {
      ReplaceAt(list, metricSource, found);
      updated := list[found := metricSource];
    } else {
      AppendWhenAbsent(list, metricSource);
      updated := list + [metricSource];
    }
    r := Sort(updated);
  }

  /** MetricsServices.RemoveSource: a scan for the last source named `nn`, its removal and a sort.Sort
      when there is one. The flag it returns is true when the list still holds a source. */
  method RemoveSource(list: seq<MetricsSource>, nn: NamespacedName) returns (r: seq<MetricsSource>, nonEmpty: bool)
    ensures r == AfterRemove(list, nn)
    ensures nonEmpty <==> |r| > 0
  {
    var found := -1;
    for i := 0 to |list|
      invariant -1 <= found < i
      invariant found == -1 ==> forall j :: 0 <= j < i ==> NamespacedNamed(list[j]) != nn
      invariant found != -1 ==> NamespacedNamed(list[found]) == nn
      invariant forall j :: found < j < i ==> NamespacedNamed(list[j]) != nn
    {
      if list[i].name == nn.name && list[i].namespace == nn.namespace {
        found := i;
      }
    }
    r := list;
    if found != -1 {
      RemoveAt(list, nn, found);
      r := Sort(list[..found] + list[found + 1..]);
    }
    nonEmpty := |r| > 0;
  }

  /** MetricsServices.GetBestMetricService: the first source, or an error on an empty list. */
  function GetBestMetricService(list: seq<MetricsSource>): (r: Result<MetricsSource>)
    ensures r.Failure? <==> list == []
    ensures r.Failure? ==> r.error == NoBackend
    ensures r.Success? ==> r.value == list[0]
  {
    if |list| == 0 then Failure(NoBackend) else Success(list[0])
  }

  /** On a sorted list the source GetBestMetricService picks has the lowest priority, and no source of
      that priority has a smaller name. */
  lemma BestIsLowestPriority(list: seq<MetricsSource>)
    requires SortedBy(list, Less) && list != []
    ensures GetBestMetricService(list).Success?
    ensures forall s :: s in list ==> list[0].spec.priority <= s.spec.priority
    ensures forall s :: s in list && s.spec.priority == list[0].spec.priority ==> !StringLess(s.name, list[0].name)
  {
    forall s | s in list
      ensures list[0].spec.priority <= s.spec.priority
      ensures s.spec.priority == list[0].spec.priority ==> !StringLess(s.name, list[0].name)
    {
      var j :| 0 <= j < |list| && list[j] == s;
      if j > 0 {
        assert !Less(list[j], list[0]);
      } else {
        StringLessIrreflexive(s.name);
      }
    }
  }

  /** Reordering keeps namespaced names unique. */
  lemma KeysUniquePermutation(s: seq<MetricsSource>, t: seq<MetricsSource>)
    requires KeysUnique(s) && multiset(s) == multiset(t)
    ensures KeysUnique(t)
  {
    forall i, j | 0 <= i < j < |t|
      ensures NamespacedNamed(t[i]) != NamespacedNamed(t[j])
    {
      if t[i] == t[j] {
        RepeatedCount(t, i, j);
        RepeatedInUnique(s, t[i]);
      } else {
        assert t[i] in multiset(s) && t[j] in multiset(s);
        var a :| 0 <= a < |s| && s[a] == t[i];
        var b :| 0 <= b < |s| && s[b] == t[j];
        assert a != b;
        if a < b {
          assert NamespacedNamed(s[a]) != NamespacedNamed(s[b]);
        } else {
          assert NamespacedNamed(s[b]) != NamespacedNamed(s[a]);
        }
      }
    }
  }

  /** In a list with unique namespaced names no source occurs twice. */
  lemma RepeatedInUnique(s: seq<MetricsSource>, x: MetricsSource)
    requires KeysUnique(s)
    ensures multiset(s)[x] <= 1
  {
    assert Distinct(s);
    DistinctCount(s, x);
  }

  /** Sorting: sorted, a permutation, and unique namespaced names kept. */
  lemma SortKeeps(list: seq<MetricsSource>)
    ensures SortedBy(Sort(list), Less)
    ensures multiset(Sort(list)) == multiset(list)
    ensures |Sort(list)| == |list|
    ensures forall x :: x in Sort(list) <==> x in list
    ensures KeysUnique(list) ==> KeysUnique(Sort(list))
  {
    LessIsStrictOrder();
    SortBySorted(list, Less);
    var r := Sort(list);
    assert |multiset(r)| == |multiset(list)|;
    forall x
      ensures x in r <==> x in list
    {
      assert x in r <==> x in multiset(r);
      assert x in list <==> x in multiset(list);
    }
    if KeysUnique(list) {
      KeysUniquePermutation(list, r);
    }
  }

  lemma ReplaceOrAppendMembers(list: seq<MetricsSource>, s: MetricsSource)
    requires KeysUnique(list)
    ensures KeysUnique(ReplaceOrAppend(list, s))
    ensures forall x :: x in ReplaceOrAppend(list, s) <==>
      (x in list && NamespacedNamed(x) != NamespacedNamed(s)) || x == s
    ensures |ReplaceOrAppend(list, s)| == if HasKey(list, NamespacedNamed(s)) then |list| else |list| + 1
  {
    if HasKey(list, NamespacedNamed(s)) {
      var i :| 0 <= i < |list| && NamespacedNamed(list[i]) == NamespacedNamed(s);
      ReplaceAt(list, s, i);
      ReplacedUnique(list, s, i);
      forall x
        ensures x in list[i := s] <==> (x in list && NamespacedNamed(x) != NamespacedNamed(s)) || x == s
      {
        ReplacedMember(list, s, i, x);
      }
    } else {
      AppendWhenAbsent(list, s);
      AppendedUnique(list, s);
    }
  }

  lemma ReplacedUnique(list: seq<MetricsSource>, s: MetricsSource, i: nat)
    requires KeysUnique(list) && i < |list| && NamespacedNamed(list[i]) == NamespacedNamed(s)
    ensures KeysUnique(list[i := s])
  {
    var r := list[i := s];
    forall a, b | 0 <= a < b < |r|
      ensures NamespacedNamed(r[a]) != NamespacedNamed(r[b])
    {
      assert NamespacedNamed(r[a]) == NamespacedNamed(list[a]);
      assert NamespacedNamed(r[b]) == NamespacedNamed(list[b]);
    }
  }

  lemma AppendedUnique(list: seq<MetricsSource>, s: MetricsSource)
    requires KeysUnique(list) && !HasKey(list, NamespacedNamed(s))
    ensures KeysUnique(list + [s])
  {
    var r := list + [s];
    forall a, b | 0 <= a < b < |r|
      ensures NamespacedNamed(r[a]) != NamespacedNamed(r[b])
    {
      if b == |list| {
        assert r[a] == list[a];
      } else {
        assert r[a] == list[a] && r[b] == list[b];
      }
    }
  }

  lemma ReplacedMember(list: seq<MetricsSource>, s: MetricsSource, i: nat, x: MetricsSource)
    requires KeysUnique(list) && i < |list| && NamespacedNamed(list[i]) == NamespacedNamed(s)
    ensures x in list[i := s] <==> (x in list && NamespacedNamed(x) != NamespacedNamed(s)) || x == s
  {
    var r := list[i := s];
    assert r[i] == s;
    if x in r && x != s {
      var k :| 0 <= k < |r| && r[k] == x;
      assert k != i && list[k] == x;
      if k < i {
        assert NamespacedNamed(list[k]) != NamespacedNamed(list[i]);
      } else {
        assert NamespacedNamed(list[i]) != NamespacedNamed(list[k]);
      }
    }
    if x in list && NamespacedNamed(x) != NamespacedNamed(s) {
      var k :| 0 <= k < |list| && list[k] == x;
      assert r[k] == x;
    }
  }

  lemma {:induction false} RemoveLastMembers(list: seq<MetricsSource>, nn: NamespacedName)
    requires KeysUnique(list)
    ensures KeysUnique(RemoveLast(list, nn))
    ensures forall x :: x in RemoveLast(list, nn) <==> x in list && NamespacedNamed(x) != nn
    ensures HasKey(list, nn) ==> |RemoveLast(list, nn)| == |list| - 1
  {
    if list != [] {
      var init := list[..|list| - 1];
      var last := list[|list| - 1];
      assert list == init + [last];
      RemoveLastMembers(init, nn);
      if NamespacedNamed(last) != nn {
        assert HasKey(list, nn) ==> HasKey(init, nn) by {
          if HasKey(list, nn) {
            var i :| 0 <= i < |list| && NamespacedNamed(list[i]) == nn;
            assert NamespacedNamed(init[i]) == nn;
          }
        }
        var r := RemoveLast(init, nn) + [last];
        forall i, j | 0 <= i < j < |r|
          ensures NamespacedNamed(r[i]) != NamespacedNamed(r[j])
        {
          if j == |r| - 1 {
            assert r[i] in RemoveLast(init, nn);
            var k :| 0 <= k < |init| && init[k] == r[i];
            assert NamespacedNamed(list[k]) != NamespacedNamed(list[|list| - 1]);
          }
        }
      } else {
        forall x | x in init
          ensures NamespacedNamed(x) != nn
        {
          var k :| 0 <= k < |init| && init[k] == x;
          assert NamespacedNamed(list[k]) != NamespacedNamed(list[|list| - 1]);
        }
      }
    }
  }

  /** AddOrUpdateSource on a list with unique namespaced names: the result is sorted, keeps the names
      unique, is a permutation of the list with the source replaced or appended, holds the new source
      and every source of another namespaced name and nothing else, and is one longer exactly when the
      namespaced name was absent. */
  lemma AddOrUpdateSourceSpec(list: seq<MetricsSource>, s: MetricsSource)
    requires KeysUnique(list)
    ensures SortedBy(AfterAddOrUpdate(list, s), Less)
    ensures KeysUnique(AfterAddOrUpdate(list, s))
    ensures multiset(AfterAddOrUpdate(list, s)) == multiset(ReplaceOrAppend(list, s))
    ensures forall x :: x in AfterAddOrUpdate(list, s) <==> (x in list && NamespacedNamed(x) != NamespacedNamed(s)) || x == s
    ensures |AfterAddOrUpdate(list, s)| == if HasKey(list, NamespacedNamed(s)) then |list| else |list| + 1
  {
    ReplaceOrAppendMembers(list, s);
    SortKeeps(ReplaceOrAppend(list, s));
  }

  /** AddOrUpdateSource with a source already listed at the same priority replaces it in place: the
      order reads only the priority and the name, so the list stays sorted and the sort keeps it. */
  lemma AddOrUpdateInPlace(list: seq<MetricsSource>, s: MetricsSource, i: nat)
    requires SortedBy(list, Less) && KeysUnique(list)
    requires i < |list| && NamespacedNamed(list[i]) == NamespacedNamed(s) && list[i].spec.priority == s.spec.priority
    ensures AfterAddOrUpdate(list, s) == list[i := s]
  {
    ReplaceAt(list, s, i);
    var l := list[i := s];
    forall p, q | 0 <= p < q < |l|
      ensures !Less(l[q], l[p])
    {
      assert Less(l[q], l[p]) == Less(list[q], list[p]);
    }
    SortByOfSorted(l, Less);
  }

  /** AddOrUpdateSource with a source the list already holds gives back the same list. */
  lemma AddOrUpdateListed(list: seq<MetricsSource>, s: MetricsSource)
    requires SortedBy(list, Less) && KeysUnique(list) && s in list
    ensures AfterAddOrUpdate(list, s) == list
  {
    var i :| 0 <= i < |list| && list[i] == s;
    AddOrUpdateInPlace(list, s, i);
    assert list[i := s] == list;
  }

  /** RemoveSource on a list with unique namespaced names: every source of another namespaced name
      stays and the named one goes; when it was present the result is sorted and one shorter, and
      when it was absent the list is untouched. */
  lemma RemoveSourceSpec(list: seq<MetricsSource>, nn: NamespacedName)
    requires KeysUnique(list)
    ensures KeysUnique(AfterRemove(list, nn))
    ensures forall x :: x in AfterRemove(list, nn) <==> x in list && NamespacedNamed(x) != nn
    ensures HasKey(list, nn) ==> SortedBy(AfterRemove(list, nn), Less) && |AfterRemove(list, nn)| == |list| - 1
    ensures !HasKey(list, nn) ==> AfterRemove(list, nn) == list
  {
    RemoveLastMembers(list, nn);
    if HasKey(list, nn) {
      SortKeeps(RemoveLast(list, nn));
    } else {
      forall x | x in list
        ensures NamespacedNamed(x) != nn
      {
        var i :| 0 <= i < |list| && list[i] == x;
      }
    }
  }

  /** Removal keeps a sorted list sorted, whether or not the name was present. */
  lemma RemoveKeepsSorted(list: seq<MetricsSource>, nn: NamespacedName)
    requires SortedBy(list, Less)
    ensures SortedBy(AfterRemove(list, nn), Less)
  {
    if HasKey(list, nn) {
      SortKeeps(RemoveLast(list, nn));
    }
  }
}
