/** The cases of pkg/registry/registry_test.go, stated on the model. A fixture registry is written out
    as the test helpers build it: each source's entry appended to the lists of its metrics, so that a
    list the update does not touch need not be sorted. */
module RegistryScenarios {
  import opened Common
  import opened Sorting
  import opened MetricsSourceTypes
  import opened MetricsClient
  import opened RegistryServices
  import opened Registry

  /** The fake client of a source; `connection` tells the fixture's client (0) from the one the
      fake provider hands out on an update (1). */
  function FakeClient(name: string, connection: nat): Client {
    Client(MetricsServiceBackend("fakens", name, "", ServiceBackendPort(None)), connection)
  }

  function Custom(metric: string): CustomMetricInfo {
    CustomMetricInfo(GroupResource("", ""), false, metric)
  }

  function External(metric: string): ExternalMetricInfo {
    ExternalMetricInfo(metric)
  }

  function Record(name: string, priority: int, custom: set<CustomMetricInfo>, external: set<ExternalMetricInfo>): SourceRecord {
    SourceRecord(name, priority, custom, external, FakeClient(name, 0))
  }

  function Source(name: string, priority: int, types: seq<string>): MetricsSource {
    MetricsSource(name, "", MetricsSourceSpec(MetricsServiceBackend("", name, "", ServiceBackendPort(None)), false, priority, types))
  }

  /** The first entry of a ranked list is the one that is Less than every other. */
  lemma FirstOf(list: seq<Entry>, w: Entry)
    requires Ranked(list) && w in list
    requires forall x :: x in list && x != w ==> Less(w, x)
    ensures list != [] && list[0] == w
  {
    LessIsStrictTotalOrder();
    assert list[0] in list;
  }

  /** The winner of a list after an update, from the list's members. */
  lemma WinnerAfterUpdate(before: seq<Entry>, e: Entry, w: Entry)
    requires NamesUnique(before)
    requires w == e || (w in before && w.sourceName != e.sourceName)
    requires w == e || Less(w, e)
    requires forall x :: x in before && x.sourceName != e.sourceName && x != w ==> Less(w, x)
    ensures AfterAddOrUpdate(before, e) != [] && AfterAddOrUpdate(before, e)[0] == w
  {
    AddOrUpdateSourceSpec(before, e);
    FirstOf(AfterAddOrUpdate(before, e), w);
  }

  /** Removing a source from a list of two entries with different names leaves the other entry. */
  lemma RemoveLeavingOne(x: Entry, y: Entry, name: string)
    requires x.sourceName != y.sourceName && (x.sourceName == name || y.sourceName == name)
    ensures AfterRemove([x, y], name) == if x.sourceName == name then [y] else [x]
  {
    var before := [x, y];
    assert before[0] == x && before[1] == y;
    assert HasName(before, name);
    RemoveSourceSpec(before, name);
    var l := AfterRemove(before, name);
    assert l[0] in l;
  }

  /** Removing the only entry of a list leaves it empty. */
  lemma RemoveLeavingNone(x: Entry)
    ensures AfterRemove([x], x.sourceName) == []
  {
    assert [x][0] == x;
    assert HasName([x], x.sourceName);
    RemoveSourceSpec([x], x.sourceName);
  }

  // ----- Sets and maps of a few elements -----
  // Proof aids for the scenarios below: facts about set and map displays of fixed size that the
  // verifier does not find unaided in a larger context. They model nothing of the registry.

  /** Three distinct values make a set of three. */
  lemma ThreeElements<T>(a: T, b: T, c: T)
    requires a != b && a != c && b != c
    ensures |{a, b, c}| == 3
  {
    assert {a, b, c} == {a, b} + {c};
    assert |{a, b}| == 2;
  }

  /** The keys of a map display of two entries. */
  lemma DisplayKeys2<K, V>(a: K, b: K, x: V, y: V)
    ensures map[a := x, b := y].Keys == {a, b}
  {
  }

  /** The keys of a map display of three entries. */
  lemma DisplayKeys3<K, V>(a: K, b: K, c: K, x: V, y: V, z: V)
    ensures map[a := x, b := y, c := z].Keys == {a, b, c}
  {
  }

  /** The keys of a map display of four entries. */
  lemma DisplayKeys4<K, V>(a: K, b: K, c: K, d: K, x: V, y: V, z: V, t: V)
    ensures map[a := x, b := y, c := z, d := t].Keys == {a, b, c, d}
  {
  }

  /** A pair joined to a triple that contains it is the triple. */
  lemma UnionThree<T>(a: T, b: T, c: T)
    ensures {a, b} + {a, b, c} == {a, b, c}
  {
  }

  /** Removing a pair from a triple that shares one element with it. */
  lemma Difference<T>(a: T, b: T, c: T, d: T)
    requires a != b && a != c && a != d && b != c && c != d
    ensures {a, b, d} - {a, c} == {b, d}
  {
  }

  /** A set of four with one element dropped and two of the rest added again. */
  lemma DropOneAddTwo<T>(a: T, b: T, c: T, d: T)
    requires a != d && b != d && c != d
    ensures {a, b, d, c} - {d} + {a, c} == {a, b, c}
  {
  }

  /** A triple without its last element. */
  lemma DropLast<T>(a: T, b: T, c: T)
    requires a != c && b != c
    ensures {a, b, c} - {c} == {a, b}
  {
  }

  // ----- What an update or a deletion does to one index -----

  /** A key the source still serves: its list is the old one with the source's entry added or
      updated, so the lookup finds the winner `w` of the old members and the new entry. */
  lemma ReindexResolves<K(!new)>(index: map<K, seq<Entry>>, previous: set<K>, current: set<K>, e: Entry,
                                 sources: map<string, SourceRecord>, k: K, w: Entry)
    requires previous - current <= index.Keys && k in current
    requires var before := if k in index then index[k] else [];
      NamesUnique(before) &&
      (w == e || (w in before && w.sourceName != e.sourceName)) &&
      (w == e || Less(w, e)) &&
      (forall x :: x in before && x.sourceName != e.sourceName && x != w ==> Less(w, x))
    requires w.sourceName in sources
    ensures Resolve(Reindex(index, previous, current, e), sources, k) == Success(sources[w.sourceName].client)
  {
    var r := RemoveFromIndex(index, previous - current, e.sourceName);
    assert (k in r <==> k in index) && (k in r ==> r[k] == index[k]);
    var before := if k in index then index[k] else [];
    WinnerAfterUpdate(before, e, w);
  }

  /** A key the source no longer serves and that nobody else serves either is no longer found. */
  lemma ReindexDroppedGone<K(!new)>(index: map<K, seq<Entry>>, previous: set<K>, current: set<K>, e: Entry,
                                    sources: map<string, SourceRecord>, k: K)
    requires previous - current <= index.Keys && k in previous - current
    requires AfterRemove(index[k], e.sourceName) == []
    ensures Resolve(Reindex(index, previous, current, e), sources, k) == Failure(NotFound)
  {
    assert k !in RemoveFromIndex(index, previous - current, e.sourceName);
  }

  /** A key the source no longer serves but others do goes to the first of the others. */
  lemma ReindexDroppedKept<K(!new)>(index: map<K, seq<Entry>>, previous: set<K>, current: set<K>, e: Entry,
                                    sources: map<string, SourceRecord>, k: K)
    requires previous - current <= index.Keys && k in previous - current
    requires var l := AfterRemove(index[k], e.sourceName); l != [] && l[0].sourceName in sources
    ensures Resolve(Reindex(index, previous, current, e), sources, k) ==
      Success(sources[AfterRemove(index[k], e.sourceName)[0].sourceName].client)
  {
    var r := RemoveFromIndex(index, previous - current, e.sourceName);
    assert k in r && r[k] == AfterRemove(index[k], e.sourceName);
  }

  /** The keys after the update of a source the directory did not know. */
  lemma ReindexFreshKeys<K(!new)>(index: map<K, seq<Entry>>, current: set<K>, e: Entry)
    ensures Reindex(index, {}, current, e).Keys == index.Keys + current
  {
    assert RemoveFromIndex(index, {} - current, e.sourceName) == index;
  }

  /** The keys after an update that drops two keys, one of which keeps other sources. */
  lemma ReindexDropKeys<K(!new)>(index: map<K, seq<Entry>>, previous: set<K>, current: set<K>, e: Entry, kept: K, gone: K)
    requires previous - current == {kept, gone} && kept in index && gone in index
    requires AfterRemove(index[kept], e.sourceName) != [] && AfterRemove(index[gone], e.sourceName) == []
    ensures Reindex(index, previous, current, e).Keys == index.Keys - {gone} + current
  {
    var r := RemoveFromIndex(index, previous - current, e.sourceName);
    assert r.Keys == index.Keys - {gone};
  }

  /** After a source has left every list, a key it alone served is no longer found. */
  lemma RemovedGone<K(!new)>(index: map<K, seq<Entry>>, sources: map<string, SourceRecord>, name: string, k: K)
    requires k in index ==> AfterRemove(index[k], name) == []
    ensures Resolve(RemoveFromIndex(index, index.Keys, name), sources, k) == Failure(NotFound)
  {
  }

  /** After a source has left every list, a key others serve goes to the first of the others. */
  lemma RemovedKept<K(!new)>(index: map<K, seq<Entry>>, sources: map<string, SourceRecord>, name: string, k: K)
    requires k in index
    requires var l := AfterRemove(index[k], name); l != [] && l[0].sourceName in sources
    ensures Resolve(RemoveFromIndex(index, index.Keys, name), sources, k) ==
      Success(sources[AfterRemove(index[k], name)[0].sourceName].client)
  {
    var r := RemoveFromIndex(index, index.Keys, name);
    assert k in r && r[k] == AfterRemove(index[k], name);
  }

  /** The keys after a source has left every list of an index of three keys, emptying one. */
  lemma RemovedKeys<K(!new)>(index: map<K, seq<Entry>>, name: string, a: K, b: K, gone: K)
    requires index.Keys == {a, b, gone}
    requires AfterRemove(index[a], name) != [] && AfterRemove(index[b], name) != [] && AfterRemove(index[gone], name) == []
    ensures RemoveFromIndex(index, index.Keys, name).Keys == index.Keys - {gone}
  {
  }

  /** The fixture's index after the deletion of the source listed everywhere: only the keys the
      other source also serves are left. */
  lemma RemovedFixtureKeys<K(!new)>(a: K, b: K, gone: K, e1: Entry, e2: Entry)
    requires a != b && a != gone && b != gone && e1.sourceName != e2.sourceName
    ensures var index := map[a := [e1, e2], b := [e1, e2], gone := [e1]];
      RemoveFromIndex(index, index.Keys, e1.sourceName).Keys == {a, b}
  {
    var index := map[a := [e1, e2], b := [e1, e2], gone := [e1]];
    RemoveLeavingOne(e1, e2, e1.sourceName);
    RemoveLeavingNone(e1);
    DisplayKeys3(a, b, gone, [e1, e2], [e1, e2], [e1]);
    RemovedKeys(index, e1.sourceName, a, b, gone);
    DropLast(a, b, gone);
  }

  /** After a source has left every list of an index where it was alone, nothing is left. */
  lemma RemovedAll<K(!new)>(index: map<K, seq<Entry>>, name: string)
    requires forall k :: k in index ==> AfterRemove(index[k], name) == []
    ensures RemoveFromIndex(index, index.Keys, name) == map[]
  {
  }

  // ----- The same, through Registry.AddOrUpdateSource and Registry.DeleteSource -----

  /** A successful update succeeds and counts what the source serves. */
  lemma UpdatedCount(st: State, source: MetricsSource, c: Client,
                     custom: set<CustomMetricInfo>, external: set<ExternalMetricInfo>)
    requires CanAddOrUpdate(st, source.name, Success(custom), Success(external))
    ensures var eff := AddOrUpdate(st, source, Success(c), Success(custom), Success(external));
      eff.err == None && eff.count == |custom| + |external|
  {
  }

  /** A successful update records the source with its new client. */
  lemma UpdatedSources(st: State, source: MetricsSource, c: Client,
                       custom: set<CustomMetricInfo>, external: set<ExternalMetricInfo>)
    requires CanAddOrUpdate(st, source.name, Success(custom), Success(external))
    ensures AddOrUpdate(st, source, Success(c), Success(custom), Success(external)).state.sources ==
      st.sources[source.name := SourceRecord(source.name, source.spec.priority, custom, external, c)]
  {
  }

  /** A source the directory does not know yet can always be added. */
  lemma CanAddNew(st: State, name: string, custom: set<CustomMetricInfo>, external: set<ExternalMetricInfo>)
    requires name !in st.sources
    ensures PreviousCustom(st, name) == {} && PreviousExternal(st, name) == {}
    ensures CanAddOrUpdate(st, name, Success(custom), Success(external))
  {
  }

  /** A successful update reindexes the custom metrics. */
  lemma UpdatedCustomIndex(st: State, source: MetricsSource, c: Client,
                         custom: set<CustomMetricInfo>, external: set<ExternalMetricInfo>)
    requires CanAddOrUpdate(st, source.name, Success(custom), Success(external))
    ensures AddOrUpdate(st, source, Success(c), Success(custom), Success(external)).state.customMetrics ==
      Reindex(st.customMetrics, PreviousCustom(st, source.name), custom, Entry(source.name, source.spec.priority))
  {
  }

  /** The lookup of a custom metric the updated source serves. */
  lemma UpdatedCustomLookup(st: State, source: MetricsSource, c: Client,
                          custom: set<CustomMetricInfo>, external: set<ExternalMetricInfo>, k: CustomMetricInfo, w: Entry)
    requires CanAddOrUpdate(st, source.name, Success(custom), Success(external)) && k in custom
    requires var e := Entry(source.name, source.spec.priority);
      var before := if k in st.customMetrics then st.customMetrics[k] else [];
      NamesUnique(before) &&
      (w == e || (w in before && w.sourceName != e.sourceName && w.sourceName in st.sources)) &&
      (w == e || Less(w, e)) &&
      (forall x :: x in before && x.sourceName != e.sourceName && x != w ==> Less(w, x))
    ensures var eff := AddOrUpdate(st, source, Success(c), Success(custom), Success(external));
      Resolve(eff.state.customMetrics, eff.state.sources, k) ==
        Success(if w.sourceName == source.name then c else st.sources[w.sourceName].client)
  {
    UpdatedCustomIndex(st, source, c, custom, external);
    UpdatedSources(st, source, c, custom, external);
    var eff := AddOrUpdate(st, source, Success(c), Success(custom), Success(external));
    ReindexResolves(st.customMetrics, PreviousCustom(st, source.name), custom, Entry(source.name, source.spec.priority), eff.state.sources, k, w);
  }

  /** A custom metric the updated source no longer serves, and nobody else does, is no longer found. */
  lemma DroppedCustomGone(st: State, source: MetricsSource, c: Client,
                        custom: set<CustomMetricInfo>, external: set<ExternalMetricInfo>, k: CustomMetricInfo)
    requires CanAddOrUpdate(st, source.name, Success(custom), Success(external)) && k in PreviousCustom(st, source.name) - custom
    requires AfterRemove(st.customMetrics[k], source.name) == []
    ensures var eff := AddOrUpdate(st, source, Success(c), Success(custom), Success(external));
      Resolve(eff.state.customMetrics, eff.state.sources, k) == Failure(NotFound)
  {
    UpdatedCustomIndex(st, source, c, custom, external);
    var eff := AddOrUpdate(st, source, Success(c), Success(custom), Success(external));
    ReindexDroppedGone(st.customMetrics, PreviousCustom(st, source.name), custom, Entry(source.name, source.spec.priority), eff.state.sources, k);
  }

  /** A custom metric the updated source no longer serves goes to the first of its other sources. */
  lemma DroppedCustomKept(st: State, source: MetricsSource, c: Client,
                        custom: set<CustomMetricInfo>, external: set<ExternalMetricInfo>, k: CustomMetricInfo)
    requires CanAddOrUpdate(st, source.name, Success(custom), Success(external)) && k in PreviousCustom(st, source.name) - custom
    requires var l := AfterRemove(st.customMetrics[k], source.name);
      l != [] && l[0].sourceName in st.sources && l[0].sourceName != source.name
    ensures var eff := AddOrUpdate(st, source, Success(c), Success(custom), Success(external));
      Resolve(eff.state.customMetrics, eff.state.sources, k) == Success(st.sources[AfterRemove(st.customMetrics[k], source.name)[0].sourceName].client)
  {
    UpdatedCustomIndex(st, source, c, custom, external);
    UpdatedSources(st, source, c, custom, external);
    var eff := AddOrUpdate(st, source, Success(c), Success(custom), Success(external));
    ReindexDroppedKept(st.customMetrics, PreviousCustom(st, source.name), custom, Entry(source.name, source.spec.priority), eff.state.sources, k);
  }

  /** After a deletion, a custom metric the deleted source alone served is no longer found. */
  lemma DeletedCustomGone(st: State, name: string, k: CustomMetricInfo)
    requires k in st.customMetrics ==> AfterRemove(st.customMetrics[k], name) == []
    ensures Resolve(Delete(st, name).customMetrics, Delete(st, name).sources, k) == Failure(NotFound)
  {
    RemovedGone(st.customMetrics, st.sources - {name}, name, k);
  }

  /** After a deletion, a custom metric others serve goes to the first of them. */
  lemma DeletedCustomKept(st: State, name: string, k: CustomMetricInfo)
    requires k in st.customMetrics
    requires var l := AfterRemove(st.customMetrics[k], name); l != [] && l[0].sourceName in st.sources && l[0].sourceName != name
    ensures Resolve(Delete(st, name).customMetrics, Delete(st, name).sources, k) ==
      Success(st.sources[AfterRemove(st.customMetrics[k], name)[0].sourceName].client)
  {
    RemovedKept(st.customMetrics, st.sources - {name}, name, k);
  }

  /** A successful update reindexes the external metrics. */
  lemma UpdatedExternalIndex(st: State, source: MetricsSource, c: Client,
                         custom: set<CustomMetricInfo>, external: set<ExternalMetricInfo>)
    requires CanAddOrUpdate(st, source.name, Success(custom), Success(external))
    ensures AddOrUpdate(st, source, Success(c), Success(custom), Success(external)).state.externalMetrics ==
      Reindex(st.externalMetrics, PreviousExternal(st, source.name), external, Entry(source.name, source.spec.priority))
  {
  }

  /** The lookup of a external metric the updated source serves. */
  lemma UpdatedExternalLookup(st: State, source: MetricsSource, c: Client,
                          custom: set<CustomMetricInfo>, external: set<ExternalMetricInfo>, k: ExternalMetricInfo, w: Entry)
    requires CanAddOrUpdate(st, source.name, Success(custom), Success(external)) && k in external
    requires var e := Entry(source.name, source.spec.priority);
      var before := if k in st.externalMetrics then st.externalMetrics[k] else [];
      NamesUnique(before) &&
      (w == e || (w in before && w.sourceName != e.sourceName && w.sourceName in st.sources)) &&
      (w == e || Less(w, e)) &&
      (forall x :: x in before && x.sourceName != e.sourceName && x != w ==> Less(w, x))
    ensures var eff := AddOrUpdate(st, source, Success(c), Success(custom), Success(external));
      Resolve(eff.state.externalMetrics, eff.state.sources, k) ==
        Success(if w.sourceName == source.name then c else st.sources[w.sourceName].client)
  {
    UpdatedExternalIndex(st, source, c, custom, external);
    UpdatedSources(st, source, c, custom, external);
    var eff := AddOrUpdate(st, source, Success(c), Success(custom), Success(external));
    ReindexResolves(st.externalMetrics, PreviousExternal(st, source.name), external, Entry(source.name, source.spec.priority), eff.state.sources, k, w);
  }

  /** A external metric the updated source no longer serves, and nobody else does, is no longer found. */
  lemma DroppedExternalGone(st: State, source: MetricsSource, c: Client,
                        custom: set<CustomMetricInfo>, external: set<ExternalMetricInfo>, k: ExternalMetricInfo)
    requires CanAddOrUpdate(st, source.name, Success(custom), Success(external)) && k in PreviousExternal(st, source.name) - external
    requires AfterRemove(st.externalMetrics[k], source.name) == []
    ensures var eff := AddOrUpdate(st, source, Success(c), Success(custom), Success(external));
      Resolve(eff.state.externalMetrics, eff.state.sources, k) == Failure(NotFound)
  {
    UpdatedExternalIndex(st, source, c, custom, external);
    var eff := AddOrUpdate(st, source, Success(c), Success(custom), Success(external));
    ReindexDroppedGone(st.externalMetrics, PreviousExternal(st, source.name), external, Entry(source.name, source.spec.priority), eff.state.sources, k);
  }

  /** A external metric the updated source no longer serves goes to the first of its other sources. */
  lemma DroppedExternalKept(st: State, source: MetricsSource, c: Client,
                        custom: set<CustomMetricInfo>, external: set<ExternalMetricInfo>, k: ExternalMetricInfo)
    requires CanAddOrUpdate(st, source.name, Success(custom), Success(external)) && k in PreviousExternal(st, source.name) - external
    requires var l := AfterRemove(st.externalMetrics[k], source.name);
      l != [] && l[0].sourceName in st.sources && l[0].sourceName != source.name
    ensures var eff := AddOrUpdate(st, source, Success(c), Success(custom), Success(external));
      Resolve(eff.state.externalMetrics, eff.state.sources, k) == Success(st.sources[AfterRemove(st.externalMetrics[k], source.name)[0].sourceName].client)
  {
    UpdatedExternalIndex(st, source, c, custom, external);
    UpdatedSources(st, source, c, custom, external);
    var eff := AddOrUpdate(st, source, Success(c), Success(custom), Success(external));
    ReindexDroppedKept(st.externalMetrics, PreviousExternal(st, source.name), external, Entry(source.name, source.spec.priority), eff.state.sources, k);
  }

  /** After a deletion, a external metric the deleted source alone served is no longer found. */
  lemma DeletedExternalGone(st: State, name: string, k: ExternalMetricInfo)
    requires k in st.externalMetrics ==> AfterRemove(st.externalMetrics[k], name) == []
    ensures Resolve(Delete(st, name).externalMetrics, Delete(st, name).sources, k) == Failure(NotFound)
  {
    RemovedGone(st.externalMetrics, st.sources - {name}, name, k);
  }

  /** After a deletion, a external metric others serve goes to the first of them. */
  lemma DeletedExternalKept(st: State, name: string, k: ExternalMetricInfo)
    requires k in st.externalMetrics
    requires var l := AfterRemove(st.externalMetrics[k], name); l != [] && l[0].sourceName in st.sources && l[0].sourceName != name
    ensures Resolve(Delete(st, name).externalMetrics, Delete(st, name).sources, k) ==
      Success(st.sources[AfterRemove(st.externalMetrics[k], name)[0].sourceName].client)
  {
    RemovedKept(st.externalMetrics, st.sources - {name}, name, k);
  }

  // ----- "Add a new source serving 2 existing custom metrics and 1 new custom metric" -----

  /** source1 (100) serves m1 and m2, source2 (200) serves m2; each list holds the entries in the
      order the sources were added. */
  function AddCustomFixture(source1: string, source2: string, m1: CustomMetricInfo, m2: CustomMetricInfo): State {
    State(map[source1 := Record(source1, 100, {m1, m2}, {}), source2 := Record(source2, 200, {m2}, {})],
          map[m1 := [Entry(source1, 100)], m2 := [Entry(source1, 100), Entry(source2, 200)]],
          map[])
  }

  /** newSource comes with priority 42, serving metric1, metric2 and metric3. */
  function AddCustomCase(source1: string, source2: string, newSource: string,
      metric1: string, metric2: string, metric3: string): Effect
    requires source1 != newSource && source2 != newSource
  {
    var st := AddCustomFixture(source1, source2, Custom(metric1), Custom(metric2));
    CanAddNew(st, newSource, {Custom(metric1), Custom(metric2), Custom(metric3)}, {});
    AddOrUpdate(st, Source(newSource, 42, [CustomMetrics]), Success(FakeClient(newSource, 1)), Success({Custom(metric1), Custom(metric2), Custom(metric3)}), Success({}))
  }

  /** The update succeeds and counts the three metrics newSource serves. */
  lemma AddSourceServingCustomMetrics(source1: string, source2: string, newSource: string,
      metric1: string, metric2: string, metric3: string)
    requires source1 != source2 && source1 != newSource && source2 != newSource
    requires metric1 != metric2 && metric1 != metric3 && metric2 != metric3
    ensures var eff := AddCustomCase(source1, source2, newSource, metric1, metric2, metric3);
      eff.err == None && eff.count == 3
  {
    var m1, m2, m3 := Custom(metric1), Custom(metric2), Custom(metric3);
    var st := AddCustomFixture(source1, source2, m1, m2);
    CanAddNew(st, newSource, {m1, m2, m3}, {});
    UpdatedCount(st, Source(newSource, 42, [CustomMetrics]), FakeClient(newSource, 1), {m1, m2, m3}, {});
    ThreeElements(m1, m2, m3);
  }

  /** Exactly the three metrics are listed. */
  lemma AddSourceListsCustomMetrics(source1: string, source2: string, newSource: string,
      metric1: string, metric2: string, metric3: string)
    requires source1 != source2 && source1 != newSource && source2 != newSource
    ensures var eff := AddCustomCase(source1, source2, newSource, metric1, metric2, metric3);
      eff.state.customMetrics.Keys == {Custom(metric1), Custom(metric2), Custom(metric3)}
  {
    var m1, m2, m3 := Custom(metric1), Custom(metric2), Custom(metric3);
    var st := AddCustomFixture(source1, source2, m1, m2);
    CanAddNew(st, newSource, {m1, m2, m3}, {});
    UpdatedCustomIndex(st, Source(newSource, 42, [CustomMetrics]), FakeClient(newSource, 1), {m1, m2, m3}, {});
    ReindexFreshKeys(st.customMetrics, {m1, m2, m3}, Entry(newSource, 42));
    DisplayKeys2(m1, m2, [Entry(source1, 100)], [Entry(source1, 100), Entry(source2, 200)]);
    UnionThree(m1, m2, m3);
  }

  /** No external metric appears. */
  lemma AddSourceListsCustomMetricsOnly(source1: string, source2: string, newSource: string,
      metric1: string, metric2: string, metric3: string)
    requires source1 != source2 && source1 != newSource && source2 != newSource
    ensures var eff := AddCustomCase(source1, source2, newSource, metric1, metric2, metric3);
      eff.state.externalMetrics.Keys == {}
  {
    var m1, m2, m3 := Custom(metric1), Custom(metric2), Custom(metric3);
    var st := AddCustomFixture(source1, source2, m1, m2);
    CanAddNew(st, newSource, {m1, m2, m3}, {});
    UpdatedExternalIndex(st, Source(newSource, 42, [CustomMetrics]), FakeClient(newSource, 1), {m1, m2, m3}, {});
    ReindexFreshKeys(st.externalMetrics, {}, Entry(newSource, 42));
  }

  /** metric1 goes to source1: 100 beats 42. */
  lemma AddSourceCustomMetric1(source1: string, source2: string, newSource: string,
      metric1: string, metric2: string, metric3: string)
    requires source1 != source2 && source1 != newSource && source2 != newSource
    requires metric1 != metric2 && metric1 != metric3 && metric2 != metric3
    ensures var eff := AddCustomCase(source1, source2, newSource, metric1, metric2, metric3);
      Resolve(eff.state.customMetrics, eff.state.sources, Custom(metric1)) == Success(FakeClient(source1, 0))
  {
    var m1, m2, m3 := Custom(metric1), Custom(metric2), Custom(metric3);
    var st := AddCustomFixture(source1, source2, m1, m2);
    CanAddNew(st, newSource, {m1, m2, m3}, {});
    UpdatedCustomLookup(st, Source(newSource, 42, [CustomMetrics]), FakeClient(newSource, 1), {m1, m2, m3}, {}, m1, Entry(source1, 100));
  }

  /** metric2 goes to source2: 200 is the highest of the three. */
  lemma AddSourceCustomMetric2(source1: string, source2: string, newSource: string,
      metric1: string, metric2: string, metric3: string)
    requires source1 != source2 && source1 != newSource && source2 != newSource
    requires metric1 != metric2 && metric1 != metric3 && metric2 != metric3
    ensures var eff := AddCustomCase(source1, source2, newSource, metric1, metric2, metric3);
      Resolve(eff.state.customMetrics, eff.state.sources, Custom(metric2)) == Success(FakeClient(source2, 0))
  {
    var m1, m2, m3 := Custom(metric1), Custom(metric2), Custom(metric3);
    var st := AddCustomFixture(source1, source2, m1, m2);
    CanAddNew(st, newSource, {m1, m2, m3}, {});
    UpdatedCustomLookup(st, Source(newSource, 42, [CustomMetrics]), FakeClient(newSource, 1), {m1, m2, m3}, {}, m2, Entry(source2, 200));
  }

  /** metric3 goes to newSource, its only source, through the client built for the update. */
  lemma AddSourceCustomMetric3(source1: string, source2: string, newSource: string,
      metric1: string, metric2: string, metric3: string)
    requires source1 != source2 && source1 != newSource && source2 != newSource
    requires metric1 != metric2 && metric1 != metric3 && metric2 != metric3
    ensures var eff := AddCustomCase(source1, source2, newSource, metric1, metric2, metric3);
      Resolve(eff.state.customMetrics, eff.state.sources, Custom(metric3)) == Success(FakeClient(newSource, 1))
  {
    var m1, m2, m3 := Custom(metric1), Custom(metric2), Custom(metric3);
    var st := AddCustomFixture(source1, source2, m1, m2);
    CanAddNew(st, newSource, {m1, m2, m3}, {});
    UpdatedCustomLookup(st, Source(newSource, 42, [CustomMetrics]), FakeClient(newSource, 1), {m1, m2, m3}, {}, m3, Entry(newSource, 42));
  }

  // ----- "Add a new source serving 2 existing external metrics and 1 new external metric" -----

  /** source1 (100) serves m1 and m2, source2 (200) serves m2; each list holds the entries in the
      order the sources were added. */
  function AddExternalFixture(source1: string, source2: string, m1: ExternalMetricInfo, m2: ExternalMetricInfo): State {
    State(map[source1 := Record(source1, 100, {}, {m1, m2}), source2 := Record(source2, 200, {}, {m2})],
          map[],
          map[m1 := [Entry(source1, 100)], m2 := [Entry(source1, 100), Entry(source2, 200)]])
  }

  /** newSource comes with priority 42, serving metric1, metric2 and metric3. */
  function AddExternalCase(source1: string, source2: string, newSource: string,
      metric1: string, metric2: string, metric3: string): Effect
    requires source1 != newSource && source2 != newSource
  {
    var st := AddExternalFixture(source1, source2, External(metric1), External(metric2));
    CanAddNew(st, newSource, {}, {External(metric1), External(metric2), External(metric3)});
    AddOrUpdate(st, Source(newSource, 42, [ExternalMetrics]), Success(FakeClient(newSource, 1)), Success({}), Success({External(metric1), External(metric2), External(metric3)}))
  }

  /** The update succeeds and counts the three metrics newSource serves. */
  lemma AddSourceServingExternalMetrics(source1: string, source2: string, newSource: string,
      metric1: string, metric2: string, metric3: string)
    requires source1 != source2 && source1 != newSource && source2 != newSource
    requires metric1 != metric2 && metric1 != metric3 && metric2 != metric3
    ensures var eff := AddExternalCase(source1, source2, newSource, metric1, metric2, metric3);
      eff.err == None && eff.count == 3
  {
    var m1, m2, m3 := External(metric1), External(metric2), External(metric3);
    var st := AddExternalFixture(source1, source2, m1, m2);
    CanAddNew(st, newSource, {}, {m1, m2, m3});
    UpdatedCount(st, Source(newSource, 42, [ExternalMetrics]), FakeClient(newSource, 1), {}, {m1, m2, m3});
    ThreeElements(m1, m2, m3);
  }

  /** Exactly the three metrics are listed. */
  lemma AddSourceListsExternalMetrics(source1: string, source2: string, newSource: string,
      metric1: string, metric2: string, metric3: string)
    requires source1 != source2 && source1 != newSource && source2 != newSource
    ensures var eff := AddExternalCase(source1, source2, newSource, metric1, metric2, metric3);
      eff.state.externalMetrics.Keys == {External(metric1), External(metric2), External(metric3)}
  {
    var m1, m2, m3 := External(metric1), External(metric2), External(metric3);
    var st := AddExternalFixture(source1, source2, m1, m2);
    CanAddNew(st, newSource, {}, {m1, m2, m3});
    UpdatedExternalIndex(st, Source(newSource, 42, [ExternalMetrics]), FakeClient(newSource, 1), {}, {m1, m2, m3});
    ReindexFreshKeys(st.externalMetrics, {m1, m2, m3}, Entry(newSource, 42));
    DisplayKeys2(m1, m2, [Entry(source1, 100)], [Entry(source1, 100), Entry(source2, 200)]);
    UnionThree(m1, m2, m3);
  }

  /** No custom metric appears. */
  lemma AddSourceListsExternalMetricsOnly(source1: string, source2: string, newSource: string,
      metric1: string, metric2: string, metric3: string)
    requires source1 != source2 && source1 != newSource && source2 != newSource
    ensures var eff := AddExternalCase(source1, source2, newSource, metric1, metric2, metric3);
      eff.state.customMetrics.Keys == {}
  {
    var m1, m2, m3 := External(metric1), External(metric2), External(metric3);
    var st := AddExternalFixture(source1, source2, m1, m2);
    CanAddNew(st, newSource, {}, {m1, m2, m3});
    UpdatedCustomIndex(st, Source(newSource, 42, [ExternalMetrics]), FakeClient(newSource, 1), {}, {m1, m2, m3});
    ReindexFreshKeys(st.customMetrics, {}, Entry(newSource, 42));
  }

  /** metric1 goes to source1: 100 beats 42. */
  lemma AddSourceExternalMetric1(source1: string, source2: string, newSource: string,
      metric1: string, metric2: string, metric3: string)
    requires source1 != source2 && source1 != newSource && source2 != newSource
    requires metric1 != metric2 && metric1 != metric3 && metric2 != metric3
    ensures var eff := AddExternalCase(source1, source2, newSource, metric1, metric2, metric3);
      Resolve(eff.state.externalMetrics, eff.state.sources, External(metric1)) == Success(FakeClient(source1, 0))
  {
    var m1, m2, m3 := External(metric1), External(metric2), External(metric3);
    var st := AddExternalFixture(source1, source2, m1, m2);
    CanAddNew(st, newSource, {}, {m1, m2, m3});
    UpdatedExternalLookup(st, Source(newSource, 42, [ExternalMetrics]), FakeClient(newSource, 1), {}, {m1, m2, m3}, m1, Entry(source1, 100));
  }

  /** metric2 goes to source2: 200 is the highest of the three. */
  lemma AddSourceExternalMetric2(source1: string, source2: string, newSource: string,
      metric1: string, metric2: string, metric3: string)
    requires source1 != source2 && source1 != newSource && source2 != newSource
    requires metric1 != metric2 && metric1 != metric3 && metric2 != metric3
    ensures var eff := AddExternalCase(source1, source2, newSource, metric1, metric2, metric3);
      Resolve(eff.state.externalMetrics, eff.state.sources, External(metric2)) == Success(FakeClient(source2, 0))
  {
    var m1, m2, m3 := External(metric1), External(metric2), External(metric3);
    var st := AddExternalFixture(source1, source2, m1, m2);
    CanAddNew(st, newSource, {}, {m1, m2, m3});
    UpdatedExternalLookup(st, Source(newSource, 42, [ExternalMetrics]), FakeClient(newSource, 1), {}, {m1, m2, m3}, m2, Entry(source2, 200));
  }

  /** metric3 goes to newSource, its only source, through the client built for the update. */
  lemma AddSourceExternalMetric3(source1: string, source2: string, newSource: string,
      metric1: string, metric2: string, metric3: string)
    requires source1 != source2 && source1 != newSource && source2 != newSource
    requires metric1 != metric2 && metric1 != metric3 && metric2 != metric3
    ensures var eff := AddExternalCase(source1, source2, newSource, metric1, metric2, metric3);
      Resolve(eff.state.externalMetrics, eff.state.sources, External(metric3)) == Success(FakeClient(newSource, 1))
  {
    var m1, m2, m3 := External(metric1), External(metric2), External(metric3);
    var st := AddExternalFixture(source1, source2, m1, m2);
    CanAddNew(st, newSource, {}, {m1, m2, m3});
    UpdatedExternalLookup(st, Source(newSource, 42, [ExternalMetrics]), FakeClient(newSource, 1), {}, {m1, m2, m3}, m3, Entry(newSource, 42));
  }

  // ----- "Update an existing custom metrics source: remove some previously served metrics and increase priority" -----

  /** source1 (100) serves m1, m2 and m4; source2 (200) serves m2 and m3. */
  function UpdateCustomFixture(source1: string, source2: string, m1: CustomMetricInfo, m2: CustomMetricInfo, m3: CustomMetricInfo, m4: CustomMetricInfo): State {
    State(map[source1 := Record(source1, 100, {m1, m2, m4}, {}), source2 := Record(source2, 200, {m2, m3}, {})],
          map[m1 := [Entry(source1, 100)], m2 := [Entry(source1, 100), Entry(source2, 200)],
              m4 := [Entry(source1, 100)], m3 := [Entry(source2, 200)]],
          map[])
  }

  /** source1 comes back with priority 300, serving metric1 and metric3 only. */
  function UpdateCustomCase(source1: string, source2: string, metric1: string, metric2: string, metric3: string, metric4: string): Effect
    requires source1 != source2
  {
    var m1, m2, m3, m4 := Custom(metric1), Custom(metric2), Custom(metric3), Custom(metric4);
    AddOrUpdate(UpdateCustomFixture(source1, source2, m1, m2, m3, m4), Source(source1, 300, [CustomMetrics]), Success(FakeClient(source1, 1)),
                Success({m1, m3}), Success({}))
  }

  /** The update succeeds and counts the two metrics source1 now serves. */
  lemma UpdateSourceServingCustomMetrics(source1: string, source2: string, metric1: string, metric2: string, metric3: string, metric4: string)
    requires source1 != source2
    requires metric1 != metric2 && metric1 != metric3 && metric1 != metric4
    requires metric2 != metric3 && metric2 != metric4 && metric3 != metric4
    ensures var eff := UpdateCustomCase(source1, source2, metric1, metric2, metric3, metric4);
      eff.err == None && eff.count == 2
  {
    var m1, m2, m3, m4 := Custom(metric1), Custom(metric2), Custom(metric3), Custom(metric4);
    var st := UpdateCustomFixture(source1, source2, m1, m2, m3, m4);
    UpdatedCount(st, Source(source1, 300, [CustomMetrics]), FakeClient(source1, 1), {m1, m3}, {});
  }

  /** metric4 goes (source1 was its only source); metric2 stays, served by source2. */
  lemma UpdateSourceListsCustomMetrics(source1: string, source2: string, metric1: string, metric2: string, metric3: string, metric4: string)
    requires source1 != source2
    requires metric1 != metric2 && metric1 != metric3 && metric1 != metric4
    requires metric2 != metric3 && metric2 != metric4 && metric3 != metric4
    ensures var eff := UpdateCustomCase(source1, source2, metric1, metric2, metric3, metric4);
      eff.state.customMetrics.Keys == {Custom(metric1), Custom(metric2), Custom(metric3)}
  {
    var m1, m2, m3, m4 := Custom(metric1), Custom(metric2), Custom(metric3), Custom(metric4);
    var st := UpdateCustomFixture(source1, source2, m1, m2, m3, m4);
    var e1, e2 := Entry(source1, 100), Entry(source2, 200);
    UpdatedCustomIndex(st, Source(source1, 300, [CustomMetrics]), FakeClient(source1, 1), {m1, m3}, {});
    RemoveLeavingOne(e1, e2, source1);
    RemoveLeavingNone(e1);
    Difference(m1, m2, m3, m4);
    ReindexDropKeys(st.customMetrics, {m1, m2, m4}, {m1, m3}, Entry(source1, 300), m2, m4);
    DisplayKeys4(m1, m2, m4, m3, [e1], [e1, e2], [e1], [e2]);
    DropOneAddTwo(m1, m2, m3, m4);
  }

  /** metric4 is no longer served by anybody. */
  lemma UpdateSourceCustomMetric4(source1: string, source2: string, metric1: string, metric2: string, metric3: string, metric4: string)
    requires source1 != source2
    requires metric1 != metric2 && metric1 != metric3 && metric1 != metric4
    requires metric2 != metric3 && metric2 != metric4 && metric3 != metric4
    ensures var eff := UpdateCustomCase(source1, source2, metric1, metric2, metric3, metric4);
      Resolve(eff.state.customMetrics, eff.state.sources, Custom(metric4)) == Failure(NotFound)
  {
    var m1, m2, m3, m4 := Custom(metric1), Custom(metric2), Custom(metric3), Custom(metric4);
    var st := UpdateCustomFixture(source1, source2, m1, m2, m3, m4);
    RemoveLeavingNone(Entry(source1, 100));
    DroppedCustomGone(st, Source(source1, 300, [CustomMetrics]), FakeClient(source1, 1), {m1, m3}, {}, m4);
  }

  /** metric3 now goes to source1: 300 beats 200. */
  lemma UpdateSourceCustomMetric3(source1: string, source2: string, metric1: string, metric2: string, metric3: string, metric4: string)
    requires source1 != source2
    requires metric1 != metric2 && metric1 != metric3 && metric1 != metric4
    requires metric2 != metric3 && metric2 != metric4 && metric3 != metric4
    ensures var eff := UpdateCustomCase(source1, source2, metric1, metric2, metric3, metric4);
      Resolve(eff.state.customMetrics, eff.state.sources, Custom(metric3)) == Success(FakeClient(source1, 1))
  {
    var m1, m2, m3, m4 := Custom(metric1), Custom(metric2), Custom(metric3), Custom(metric4);
    var st := UpdateCustomFixture(source1, source2, m1, m2, m3, m4);
    UpdatedCustomLookup(st, Source(source1, 300, [CustomMetrics]), FakeClient(source1, 1), {m1, m3}, {}, m3, Entry(source1, 300));
  }

  /** metric2 is now served by source2 alone. */
  lemma UpdateSourceCustomMetric2(source1: string, source2: string, metric1: string, metric2: string, metric3: string, metric4: string)
    requires source1 != source2
    requires metric1 != metric2 && metric1 != metric3 && metric1 != metric4
    requires metric2 != metric3 && metric2 != metric4 && metric3 != metric4
    ensures var eff := UpdateCustomCase(source1, source2, metric1, metric2, metric3, metric4);
      Resolve(eff.state.customMetrics, eff.state.sources, Custom(metric2)) == Success(FakeClient(source2, 0))
  {
    var m1, m2, m3, m4 := Custom(metric1), Custom(metric2), Custom(metric3), Custom(metric4);
    var st := UpdateCustomFixture(source1, source2, m1, m2, m3, m4);
    RemoveLeavingOne(Entry(source1, 100), Entry(source2, 200), source1);
    DroppedCustomKept(st, Source(source1, 300, [CustomMetrics]), FakeClient(source1, 1), {m1, m3}, {}, m2);
  }

  /** metric1 is still served by source1, through its new client. */
  lemma UpdateSourceCustomMetric1(source1: string, source2: string, metric1: string, metric2: string, metric3: string, metric4: string)
    requires source1 != source2
    requires metric1 != metric2 && metric1 != metric3 && metric1 != metric4
    requires metric2 != metric3 && metric2 != metric4 && metric3 != metric4
    ensures var eff := UpdateCustomCase(source1, source2, metric1, metric2, metric3, metric4);
      Resolve(eff.state.customMetrics, eff.state.sources, Custom(metric1)) == Success(FakeClient(source1, 1))
  {
    var m1, m2, m3, m4 := Custom(metric1), Custom(metric2), Custom(metric3), Custom(metric4);
    var st := UpdateCustomFixture(source1, source2, m1, m2, m3, m4);
    UpdatedCustomLookup(st, Source(source1, 300, [CustomMetrics]), FakeClient(source1, 1), {m1, m3}, {}, m1, Entry(source1, 300));
  }

  // ----- "Update an existing external metrics source: remove some previously served metrics and increase priority" -----

  /** source1 (100) serves m1, m2 and m4; source2 (200) serves m2 and m3. */
  function UpdateExternalFixture(source1: string, source2: string, m1: ExternalMetricInfo, m2: ExternalMetricInfo, m3: ExternalMetricInfo, m4: ExternalMetricInfo): State {
    State(map[source1 := Record(source1, 100, {}, {m1, m2, m4}), source2 := Record(source2, 200, {}, {m2, m3})],
          map[],
          map[m1 := [Entry(source1, 100)], m2 := [Entry(source1, 100), Entry(source2, 200)],
              m4 := [Entry(source1, 100)], m3 := [Entry(source2, 200)]])
  }

  /** source1 comes back with priority 300, serving metric1 and metric3 only. */
  function UpdateExternalCase(source1: string, source2: string, metric1: string, metric2: string, metric3: string, metric4: string): Effect
    requires source1 != source2
  {
    var m1, m2, m3, m4 := External(metric1), External(metric2), External(metric3), External(metric4);
    AddOrUpdate(UpdateExternalFixture(source1, source2, m1, m2, m3, m4), Source(source1, 300, [ExternalMetrics]), Success(FakeClient(source1, 1)),
                Success({}), Success({m1, m3}))
  }

  /** The update succeeds and counts the two metrics source1 now serves. */
  lemma UpdateSourceServingExternalMetrics(source1: string, source2: string, metric1: string, metric2: string, metric3: string, metric4: string)
    requires source1 != source2
    requires metric1 != metric2 && metric1 != metric3 && metric1 != metric4
    requires metric2 != metric3 && metric2 != metric4 && metric3 != metric4
    ensures var eff := UpdateExternalCase(source1, source2, metric1, metric2, metric3, metric4);
      eff.err == None && eff.count == 2
  {
    var m1, m2, m3, m4 := External(metric1), External(metric2), External(metric3), External(metric4);
    var st := UpdateExternalFixture(source1, source2, m1, m2, m3, m4);
    UpdatedCount(st, Source(source1, 300, [ExternalMetrics]), FakeClient(source1, 1), {}, {m1, m3});
  }

  /** metric4 goes (source1 was its only source); metric2 stays, served by source2. */
  lemma UpdateSourceListsExternalMetrics(source1: string, source2: string, metric1: string, metric2: string, metric3: string, metric4: string)
    requires source1 != source2
    requires metric1 != metric2 && metric1 != metric3 && metric1 != metric4
    requires metric2 != metric3 && metric2 != metric4 && metric3 != metric4
    ensures var eff := UpdateExternalCase(source1, source2, metric1, metric2, metric3, metric4);
      eff.state.externalMetrics.Keys == {External(metric1), External(metric2), External(metric3)}
  {
    var m1, m2, m3, m4 := External(metric1), External(metric2), External(metric3), External(metric4);
    var st := UpdateExternalFixture(source1, source2, m1, m2, m3, m4);
    var e1, e2 := Entry(source1, 100), Entry(source2, 200);
    UpdatedExternalIndex(st, Source(source1, 300, [ExternalMetrics]), FakeClient(source1, 1), {}, {m1, m3});
    RemoveLeavingOne(e1, e2, source1);
    RemoveLeavingNone(e1);
    Difference(m1, m2, m3, m4);
    ReindexDropKeys(st.externalMetrics, {m1, m2, m4}, {m1, m3}, Entry(source1, 300), m2, m4);
    DisplayKeys4(m1, m2, m4, m3, [e1], [e1, e2], [e1], [e2]);
    DropOneAddTwo(m1, m2, m3, m4);
  }

  /** metric4 is no longer served by anybody. */
  lemma UpdateSourceExternalMetric4(source1: string, source2: string, metric1: string, metric2: string, metric3: string, metric4: string)
    requires source1 != source2
    requires metric1 != metric2 && metric1 != metric3 && metric1 != metric4
    requires metric2 != metric3 && metric2 != metric4 && metric3 != metric4
    ensures var eff := UpdateExternalCase(source1, source2, metric1, metric2, metric3, metric4);
      Resolve(eff.state.externalMetrics, eff.state.sources, External(metric4)) == Failure(NotFound)
  {
    var m1, m2, m3, m4 := External(metric1), External(metric2), External(metric3), External(metric4);
    var st := UpdateExternalFixture(source1, source2, m1, m2, m3, m4);
    RemoveLeavingNone(Entry(source1, 100));
    DroppedExternalGone(st, Source(source1, 300, [ExternalMetrics]), FakeClient(source1, 1), {}, {m1, m3}, m4);
  }

  /** metric3 now goes to source1: 300 beats 200. */
  lemma UpdateSourceExternalMetric3(source1: string, source2: string, metric1: string, metric2: string, metric3: string, metric4: string)
    requires source1 != source2
    requires metric1 != metric2 && metric1 != metric3 && metric1 != metric4
    requires metric2 != metric3 && metric2 != metric4 && metric3 != metric4
    ensures var eff := UpdateExternalCase(source1, source2, metric1, metric2, metric3, metric4);
      Resolve(eff.state.externalMetrics, eff.state.sources, External(metric3)) == Success(FakeClient(source1, 1))
  {
    var m1, m2, m3, m4 := External(metric1), External(metric2), External(metric3), External(metric4);
    var st := UpdateExternalFixture(source1, source2, m1, m2, m3, m4);
    UpdatedExternalLookup(st, Source(source1, 300, [ExternalMetrics]), FakeClient(source1, 1), {}, {m1, m3}, m3, Entry(source1, 300));
  }

  /** metric2 is now served by source2 alone. */
  lemma UpdateSourceExternalMetric2(source1: string, source2: string, metric1: string, metric2: string, metric3: string, metric4: string)
    requires source1 != source2
    requires metric1 != metric2 && metric1 != metric3 && metric1 != metric4
    requires metric2 != metric3 && metric2 != metric4 && metric3 != metric4
    ensures var eff := UpdateExternalCase(source1, source2, metric1, metric2, metric3, metric4);
      Resolve(eff.state.externalMetrics, eff.state.sources, External(metric2)) == Success(FakeClient(source2, 0))
  {
    var m1, m2, m3, m4 := External(metric1), External(metric2), External(metric3), External(metric4);
    var st := UpdateExternalFixture(source1, source2, m1, m2, m3, m4);
    RemoveLeavingOne(Entry(source1, 100), Entry(source2, 200), source1);
    DroppedExternalKept(st, Source(source1, 300, [ExternalMetrics]), FakeClient(source1, 1), {}, {m1, m3}, m2);
  }

  /** metric1 is still served by source1, through its new client. */
  lemma UpdateSourceExternalMetric1(source1: string, source2: string, metric1: string, metric2: string, metric3: string, metric4: string)
    requires source1 != source2
    requires metric1 != metric2 && metric1 != metric3 && metric1 != metric4
    requires metric2 != metric3 && metric2 != metric4 && metric3 != metric4
    ensures var eff := UpdateExternalCase(source1, source2, metric1, metric2, metric3, metric4);
      Resolve(eff.state.externalMetrics, eff.state.sources, External(metric1)) == Success(FakeClient(source1, 1))
  {
    var m1, m2, m3, m4 := External(metric1), External(metric2), External(metric3), External(metric4);
    var st := UpdateExternalFixture(source1, source2, m1, m2, m3, m4);
    UpdatedExternalLookup(st, Source(source1, 300, [ExternalMetrics]), FakeClient(source1, 1), {}, {m1, m3}, m1, Entry(source1, 300));
  }

  // ----- "Remove registry" -----

  /** source1 (100) serves three custom and three external metrics, source2 (200) the first two of
      each; in every shared list source1 comes first. */
  function RemoveFixture(source1: string, source2: string, c1: string, c2: string, c3: string,
                         x1: string, x2: string, x3: string): State {
    var e1, e2 := Entry(source1, 100), Entry(source2, 200);
    State(map[source1 := Record(source1, 100, {Custom(c1), Custom(c2), Custom(c3)}, {External(x1), External(x2), External(x3)}),
              source2 := Record(source2, 200, {Custom(c1), Custom(c2)}, {External(x1), External(x2)})],
          map[Custom(c1) := [e1, e2], Custom(c2) := [e1, e2], Custom(c3) := [e1]],
          map[External(x1) := [e1, e2], External(x2) := [e1, e2], External(x3) := [e1]])
  }

  /** The directory keeps source2 alone. */
  lemma RemoveSourceForgetsIt(source1: string, source2: string, c1: string, c2: string, c3: string,
                                    x1: string, x2: string, x3: string)
    requires source1 != source2
    ensures Delete(RemoveFixture(source1, source2, c1, c2, c3, x1, x2, x3), source1).sources.Keys == {source2}
  {
    var st := RemoveFixture(source1, source2, c1, c2, c3, x1, x2, x3);
    DisplayKeys2(source1, source2, st.sources[source1], st.sources[source2]);
  }

  /** Deleting source1 leaves the custom metrics source2 serves, and only those. */
  lemma RemoveSourceListsCustomMetrics(source1: string, source2: string, c1: string, c2: string, c3: string,
                                    x1: string, x2: string, x3: string)
    requires source1 != source2
    requires c1 != c2 && c1 != c3 && c2 != c3
    ensures Delete(RemoveFixture(source1, source2, c1, c2, c3, x1, x2, x3), source1).customMetrics.Keys == {Custom(c1), Custom(c2)}
  {
    var st := RemoveFixture(source1, source2, c1, c2, c3, x1, x2, x3);
    RemovedFixtureKeys(Custom(c1), Custom(c2), Custom(c3), Entry(source1, 100), Entry(source2, 200));
    assert Delete(st, source1).customMetrics == RemoveFromIndex(st.customMetrics, st.customMetrics.Keys, source1);
  }

  /** Deleting source1 leaves the external metrics source2 serves, and only those. */
  lemma RemoveSourceListsExternalMetrics(source1: string, source2: string, c1: string, c2: string, c3: string,
                                    x1: string, x2: string, x3: string)
    requires source1 != source2
    requires x1 != x2 && x1 != x3 && x2 != x3
    ensures Delete(RemoveFixture(source1, source2, c1, c2, c3, x1, x2, x3), source1).externalMetrics.Keys == {External(x1), External(x2)}
  {
    var st := RemoveFixture(source1, source2, c1, c2, c3, x1, x2, x3);
    RemovedFixtureKeys(External(x1), External(x2), External(x3), Entry(source1, 100), Entry(source2, 200));
    assert Delete(st, source1).externalMetrics == RemoveFromIndex(st.externalMetrics, st.externalMetrics.Keys, source1);
  }

  /** Custom metric c3 was served by source1 alone and is no longer found. */
  lemma RemoveSourceCustomMetric3(source1: string, source2: string, c1: string, c2: string, c3: string,
                                    x1: string, x2: string, x3: string)
    requires source1 != source2
    requires c1 != c3 && c2 != c3
    ensures var st := Delete(RemoveFixture(source1, source2, c1, c2, c3, x1, x2, x3), source1);
      Resolve(st.customMetrics, st.sources, Custom(c3)) == Failure(NotFound)
  {
    RemoveLeavingNone(Entry(source1, 100));
    DeletedCustomGone(RemoveFixture(source1, source2, c1, c2, c3, x1, x2, x3), source1, Custom(c3));
  }

  /** Every external metric but x1 and x2 is no longer found: x3, and any name that was never
      listed. */
  lemma RemoveSourceExternalMetric3(source1: string, source2: string, c1: string, c2: string, c3: string,
                                    x1: string, x2: string, x3: string, metric: string)
    requires source1 != source2
    requires metric != x1 && metric != x2
    ensures var st := Delete(RemoveFixture(source1, source2, c1, c2, c3, x1, x2, x3), source1);
      Resolve(st.externalMetrics, st.sources, External(metric)) == Failure(NotFound)
  {
    RemoveLeavingNone(Entry(source1, 100));
    DeletedExternalGone(RemoveFixture(source1, source2, c1, c2, c3, x1, x2, x3), source1, External(metric));
  }

  /** Custom metric c1 goes to source2. */
  lemma RemoveSourceCustomMetric1(source1: string, source2: string, c1: string, c2: string, c3: string,
                                    x1: string, x2: string, x3: string)
    requires source1 != source2
    requires c1 != c2 && c1 != c3 && c2 != c3
    ensures var st := Delete(RemoveFixture(source1, source2, c1, c2, c3, x1, x2, x3), source1);
      Resolve(st.customMetrics, st.sources, Custom(c1)) == Success(FakeClient(source2, 0))
  {
    RemoveLeavingOne(Entry(source1, 100), Entry(source2, 200), source1);
    DeletedCustomKept(RemoveFixture(source1, source2, c1, c2, c3, x1, x2, x3), source1, Custom(c1));
  }

  /** Custom metric c2 goes to source2. */
  lemma RemoveSourceCustomMetric2(source1: string, source2: string, c1: string, c2: string, c3: string,
                                    x1: string, x2: string, x3: string)
    requires source1 != source2
    requires c1 != c2 && c1 != c3 && c2 != c3
    ensures var st := Delete(RemoveFixture(source1, source2, c1, c2, c3, x1, x2, x3), source1);
      Resolve(st.customMetrics, st.sources, Custom(c2)) == Success(FakeClient(source2, 0))
  {
    RemoveLeavingOne(Entry(source1, 100), Entry(source2, 200), source1);
    DeletedCustomKept(RemoveFixture(source1, source2, c1, c2, c3, x1, x2, x3), source1, Custom(c2));
  }

  // ----- "Remove the last registry" -----

  /** Deleting the only source empties the registry, so that no metric is found any more. */
  lemma RemoveLastSource(source1: string, metric1: string, metric2: string, metric3: string)
    ensures var st := Delete(State(map[source1 := Record(source1, 100, {Custom(metric1), Custom(metric2), Custom(metric3)}, {})],
                                   map[Custom(metric1) := [Entry(source1, 100)], Custom(metric2) := [Entry(source1, 100)],
                                       Custom(metric3) := [Entry(source1, 100)]],
                                   map[]), source1);
      st == Empty && forall k :: Resolve(st.customMetrics, st.sources, k) == Failure(NotFound)
  {
    var e1 := Entry(source1, 100);
    RemoveLeavingNone(e1);
    RemovedAll(map[Custom(metric1) := [e1], Custom(metric2) := [e1], Custom(metric3) := [e1]], source1);
    RemovedAll<ExternalMetricInfo>(map[], source1);
  }
}
