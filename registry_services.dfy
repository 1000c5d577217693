/** The ranked list of pkg/registry (cachedMetricSources): the sources that serve one metric, kept
    sorted by priority, highest first, and by name on a tie. */
module RegistryServices {
  import opened Common
  import opened GoStrings
  import opened Sorting

  /** An index entry. The Go entry is a copy of the whole source record; the order reads only the
      name and the priority, and the resolver reads the client from the directory, so only those two
      fields are kept. */
  datatype Entry = Entry(sourceName: string, priority: int)

  /** cachedMetricSources.Less. */
  function Less(a: Entry, b: Entry): (r: bool)
    ensures r ==> a.priority >= b.priority
    ensures a.priority > b.priority ==> r
  {
    if a.priority > b.priority then true
    else if a.priority < b.priority then false
    else StringLess(a.sourceName, b.sourceName)
  }

  /** Less holds exactly when `a` has the higher priority, or the same priority and the smaller name,
      and it is a strict total order on entries. */
  lemma LessIsStrictTotalOrder()
    ensures forall a, b :: Less(a, b) <==>
      a.priority > b.priority || (a.priority == b.priority && StringLess(a.sourceName, b.sourceName))
    ensures StrictOrder(Less) && Connected(Less)
  {
    forall a: Entry
      ensures !Less(a, a)
    {
      StringLessIrreflexive(a.sourceName);
    }
    forall a: Entry, b: Entry, c: Entry | Less(a, b) && Less(b, c)
      ensures Less(a, c)
    {
      if a.priority == b.priority == c.priority {
        StringLessTransitive(a.sourceName, b.sourceName, c.sourceName);
      }
    }
    forall a: Entry, b: Entry | a != b
      ensures Less(a, b) || Less(b, a)
    {
      if a.priority == b.priority {
        StringLessTotal(a.sourceName, b.sourceName);
      }
    }
  }

  /** sort.Sort on a ranked list. */
  function Sort(list: seq<Entry>): (r: seq<Entry>)
    ensures multiset(r) == multiset(list)
    ensures SortedBy(r, Less)
    ensures forall x :: x in r <==> x in list
  {
    LessIsStrictTotalOrder();
    SortBySorted(list, Less);
    SortByMembers(list, Less);
    SortBy(list, Less)
  }

  predicate NamesUnique(list: seq<Entry>) {
    forall i, j :: 0 <= i < j < |list| ==> list[i].sourceName != list[j].sourceName
  }

  /** The canonical form of a ranked list: strictly ordered by Less, no name twice. */
  predicate Ranked(list: seq<Entry>) {
    StrictlySortedBy(list, Less) && NamesUnique(list)
  }

  predicate HasName(list: seq<Entry>, name: string) {
    exists i :: 0 <= i < |list| && list[i].sourceName == name
  }

  /** The entry with the same name replaced, at its place, or the entry appended if there is none. */
  function ReplaceOrAppend(list: seq<Entry>, e: Entry): (r: seq<Entry>)
    ensures e in r
    ensures forall x :: x in r ==> x in list || x == e
    ensures forall x :: x in list && x.sourceName != e.sourceName ==> x in r
    ensures |r| == |list| || |r| == |list| + 1
  {
    if list == [] then [e]
    else if list[0].sourceName == e.sourceName then [e] + list[1..]
    else [list[0]] + ReplaceOrAppend(list[1..], e)
  }

  /** The list without its last entry named `name`. */
  function RemoveLast(list: seq<Entry>, name: string): (r: seq<Entry>)
    ensures forall x :: x in r ==> x in list
    ensures forall x :: x in list && x.sourceName != name ==> x in r
    ensures |r| == |list| || |r| == |list| - 1
  {
    if list == [] then []
    else if list[|list| - 1].sourceName == name then list[..|list| - 1]
    else RemoveLast(list[..|list| - 1], name) + [list[|list| - 1]]
  }

  /** The list that cachedMetricSources.addOrUpdateSource leaves. */
  function AfterAddOrUpdate(list: seq<Entry>, e: Entry): (r: seq<Entry>)
    ensures SortedBy(r, Less)
    ensures e in r
    ensures forall x :: x in r ==> x in list || x == e
    ensures forall x :: x in list && x.sourceName != e.sourceName ==> x in r
  {
    Sort(ReplaceOrAppend(list, e))
  }

  /** The list that cachedMetricSources.removeSource leaves: untouched when no entry has the name. */
  function AfterRemove(list: seq<Entry>, name: string): (r: seq<Entry>)
    ensures forall x :: x in r ==> x in list
    ensures forall x :: x in list && x.sourceName != name ==> x in r
  {
    if HasName(list, name) then Sort(RemoveLast(list, name)) else list
  }

  lemma {:induction false} ReplaceAt(list: seq<Entry>, e: Entry, i: nat)
    requires i < |list| && list[i].sourceName == e.sourceName
    requires forall j :: 0 <= j < i ==> list[j].sourceName != e.sourceName
    ensures ReplaceOrAppend(list, e) == list[i := e]
  {
    if i > 0 {
      ReplaceAt(list[1..], e, i - 1);
      UpdateAfterHead(list, i, e);
    }
  }

  lemma {:induction false} AppendWhenAbsent(list: seq<Entry>, e: Entry)
    requires forall j :: 0 <= j < |list| ==> list[j].sourceName != e.sourceName
    ensures ReplaceOrAppend(list, e) == list + [e]
  {
    if list != [] {
      AppendWhenAbsent(list[1..], e);
      assert list == [list[0]] + list[1..];
    }
  }

  lemma {:induction false} RemoveAt(list: seq<Entry>, name: string, i: nat)
    requires i < |list| && list[i].sourceName == name
    requires forall j :: i < j < |list| ==> list[j].sourceName != name
    ensures RemoveLast(list, name) == list[..i] + list[i + 1..]
  {
    var init := list[..|list| - 1];
    if i < |list| - 1 {
      RemoveAt(init, name, i);
      SpliceBeforeLast(list, i);
    } else {
      assert list[..i] + list[i + 1..] == init;
    }
  }

  /** cachedMetricSources.addOrUpdateSource: a scan for the first entry with the same name, then a
      replacement in place or an append, then sort.Sort. */
  method AddOrUpdateSource(list: seq<Entry>, metricSource: Entry) returns (r: seq<Entry>)
    ensures r == AfterAddOrUpdate(list, metricSource)
  {
    var found := -1;
    for i := 0 to |list|
      invariant found == -1
      invariant forall j :: 0 <= j < i ==> list[j].sourceName != metricSource.sourceName
    {
      if list[i].sourceName == metricSource.sourceName {
        found := i;
        break;
      }
    }
    var updated;
    if found != -1 {
      ReplaceAt(list, metricSource, found);
      updated := list[found := metricSource];
    } else {
      AppendWhenAbsent(list, metricSource);
      updated := list + [metricSource];
    }
    r := Sort(updated);
  }

  /** cachedMetricSources.removeSource: a scan for the last entry with the name, its removal and a
      sort.Sort when there is one; `empty` reports whether the list is now empty. */
  method RemoveSource(list: seq<Entry>, sourceName: string) returns (r: seq<Entry>, empty: bool)
    ensures r == AfterRemove(list, sourceName)
    ensures empty <==> |r| == 0
  {
    var found := -1;
    for i := 0 to |list|
      invariant -1 <= found < i
      invariant found == -1 ==> forall j :: 0 <= j < i ==> list[j].sourceName != sourceName
      invariant found != -1 ==> list[found].sourceName == sourceName
      invariant forall j :: found < j < i ==> list[j].sourceName != sourceName
    {
      if list[i].sourceName == sourceName {
        found := i;
      }
    }
    r := list;
    if found != -1 {
      RemoveAt(list, sourceName, found);
      r := Sort(list[..found] + list[found + 1..]);
    }
    empty := |r| == 0;
  }

  /** cachedMetricSources.getBestMetricService: the first entry, or an error on an empty list. */
  function GetBestMetricService(list: seq<Entry>): (r: Result<Entry>)
    ensures r.Failure? <==> list == []
    ensures r.Failure? ==> r.error == NoBackend
    ensures r.Success? ==> r.value == list[0]
  {
    if |list| == 0 then Failure(NoBackend) else Success(list[0])
  }

  /** On a ranked list the entry getBestMetricService picks has the highest priority, and the
      alphabetically first name among the entries of that priority. */
  lemma BestIsHighestPriority(list: seq<Entry>)
    requires Ranked(list) && list != []
    ensures GetBestMetricService(list).Success?
    ensures forall e :: e in list ==> e == list[0] || Less(list[0], e)
    ensures forall e :: e in list ==> e.priority <= list[0].priority
    ensures forall e :: e in list && e.priority == list[0].priority && e != list[0] ==>
      StringLess(list[0].sourceName, e.sourceName)
  {
    LessIsStrictTotalOrder();
  }

  lemma NamesUniqueDistinct(list: seq<Entry>)
    requires NamesUnique(list)
    ensures Distinct(list)
  {
  }

  /** Sorting a list whose names are unique gives its ranked form, with the same entries. */
  lemma SortRanks(list: seq<Entry>)
    requires NamesUnique(list)
    ensures Ranked(Sort(list))
    ensures forall e :: e in Sort(list) <==> e in list
    ensures |Sort(list)| == |list|
  {
    LessIsStrictTotalOrder();
    SortByStrict(list, Less);
    var r := Sort(list);
    assert |multiset(r)| == |multiset(list)|;
    forall i, j | 0 <= i < j < |r|
      ensures r[i].sourceName != r[j].sourceName
    {
      assert r[i] in r && r[j] in r;
      var a :| 0 <= a < |list| && list[a] == r[i];
      var b :| 0 <= b < |list| && list[b] == r[j];
      assert r[i] != r[j] by { StringLessIrreflexive(r[i].sourceName); }
    }
  }

  lemma ReplaceOrAppendMembers(list: seq<Entry>, e: Entry)
    requires NamesUnique(list)
    ensures NamesUnique(ReplaceOrAppend(list, e))
    ensures forall x :: x in ReplaceOrAppend(list, e) <==> (x in list && x.sourceName != e.sourceName) || x == e
    ensures |ReplaceOrAppend(list, e)| == if HasName(list, e.sourceName) then |list| else |list| + 1
  {
    if HasName(list, e.sourceName) {
      var i :| 0 <= i < |list| && list[i].sourceName == e.sourceName;
      ReplaceAt(list, e, i);
      ReplacedUnique(list, e, i);
      forall x
        ensures x in list[i := e] <==> (x in list && x.sourceName != e.sourceName) || x == e
      {
        ReplacedMember(list, e, i, x);
      }
    } else {
      AppendWhenAbsent(list, e);
    }
  }

  lemma ReplacedUnique(list: seq<Entry>, e: Entry, i: nat)
    requires NamesUnique(list) && i < |list| && list[i].sourceName == e.sourceName
    ensures NamesUnique(list[i := e])
  {
  }

  lemma ReplacedMember(list: seq<Entry>, e: Entry, i: nat, x: Entry)
    requires NamesUnique(list) && i < |list| && list[i].sourceName == e.sourceName
    ensures x in list[i := e] <==> (x in list && x.sourceName != e.sourceName) || x == e
  {
    var r := list[i := e];
    assert r[i] == e;
    if x in r && x != e {
      var k :| 0 <= k < |r| && r[k] == x;
      assert k != i && list[k] == x;
      if k < i {
        assert list[k].sourceName != list[i].sourceName;
      } else {
        assert list[i].sourceName != list[k].sourceName;
      }
    }
    if x in list && x.sourceName != e.sourceName {
      var k :| 0 <= k < |list| && list[k] == x;
      assert r[k] == x;
    }
  }

  lemma {:induction false} RemoveLastMembers(list: seq<Entry>, name: string)
    requires NamesUnique(list)
    ensures NamesUnique(RemoveLast(list, name))
    ensures forall x :: x in RemoveLast(list, name) <==> x in list && x.sourceName != name
    ensures HasName(list, name) ==> |RemoveLast(list, name)| == |list| - 1
  {
    if list != [] {
      var init := list[..|list| - 1];
      var last := list[|list| - 1];
      assert list == init + [last];
      RemoveLastMembers(init, name);
      if last.sourceName != name {
        assert HasName(list, name) ==> HasName(init, name) by {
          if HasName(list, name) {
            var i :| 0 <= i < |list| && list[i].sourceName == name;
            assert init[i].sourceName == name;
          }
        }
        var r := RemoveLast(init, name) + [last];
        forall i, j | 0 <= i < j < |r|
          ensures r[i].sourceName != r[j].sourceName
        {
          if j == |r| - 1 {
            assert r[i] in RemoveLast(init, name);
            var k :| 0 <= k < |init| && init[k] == r[i];
          }
        }
      }
    }
  }

  /** addOrUpdateSource on a list with unique names: the result is ranked, holds the new entry and
      every entry of another name, and nothing else; it is one longer exactly when the name was absent. */
  lemma AddOrUpdateSourceSpec(list: seq<Entry>, e: Entry)
    requires NamesUnique(list)
    ensures Ranked(AfterAddOrUpdate(list, e))
    ensures forall x :: x in AfterAddOrUpdate(list, e) <==> (x in list && x.sourceName != e.sourceName) || x == e
    ensures |AfterAddOrUpdate(list, e)| == if HasName(list, e.sourceName) then |list| else |list| + 1
  {
    ReplaceOrAppendMembers(list, e);
    SortRanks(ReplaceOrAppend(list, e));
  }

  /** addOrUpdateSource with an entry the ranked list already holds gives back the same list. */
  lemma AddOrUpdateListed(list: seq<Entry>, e: Entry)
    requires Ranked(list) && e in list
    ensures AfterAddOrUpdate(list, e) == list
  {
    var i :| 0 <= i < |list| && list[i] == e;
    ReplaceAt(list, e, i);
    assert list[i := e] == list;
    LessIsStrictTotalOrder();
    StrictlySortedIsSorted(list, Less);
    SortByOfSorted(list, Less);
  }

  /** removeSource on a list with unique names: every entry of another name stays and the named one
      goes; when the name was present the result is ranked and one shorter. */
  lemma RemoveSourceSpec(list: seq<Entry>, name: string)
    requires NamesUnique(list)
    ensures NamesUnique(AfterRemove(list, name))
    ensures forall x :: x in AfterRemove(list, name) <==> x in list && x.sourceName != name
    ensures HasName(list, name) ==> Ranked(AfterRemove(list, name)) && |AfterRemove(list, name)| == |list| - 1
    ensures !HasName(list, name) ==> AfterRemove(list, name) == list
  {
    RemoveLastMembers(list, name);
    if HasName(list, name) {
      SortRanks(RemoveLast(list, name));
    } else {
      forall x | x in list
        ensures x.sourceName != name
      {
        var i :| 0 <= i < |list| && list[i] == x;
      }
    }
  }
}
