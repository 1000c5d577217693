/** What the pkg/registry operations preserve: the consistency of the directory with its two indexes,
    and what a lookup then returns. */
module RegistryProofs {
  import opened Common
  import opened GoStrings
  import opened MetricsSourceTypes
  import opened MetricsClient
  import opened RegistryServices
  import opened Registry

  function CustomOf(r: SourceRecord): set<CustomMetricInfo> {
    r.customMetricInfos
  }

  function ExternalOf(r: SourceRecord): set<ExternalMetricInfo> {
    r.externalMetricInfos
  }

  /** What a source served before an update, as far as the directory knows. */
  function PreviousOf<K>(sources: map<string, SourceRecord>, name: string, serves: SourceRecord -> set<K>): set<K> {
    if name in sources then serves(sources[name]) else {}
  }

  /** An index agrees with the directory: every list is non-empty and ranked; every entry names a
      known source that serves the key, at that source's priority; every metric a source serves has
      the source's entry in its list. */
  ghost predicate IndexConsistent<K(!new)>(index: map<K, seq<Entry>>, sources: map<string, SourceRecord>, serves: SourceRecord -> set<K>) {
    ListsRanked(index) && EntriesServe(index, sources, serves) && ServedListed(index, sources, serves)
  }

  ghost predicate ListsRanked<K(!new)>(index: map<K, seq<Entry>>) {
    forall k :: k in index ==> index[k] != [] && Ranked(index[k])
  }

  ghost predicate EntriesServe<K(!new)>(index: map<K, seq<Entry>>, sources: map<string, SourceRecord>, serves: SourceRecord -> set<K>) {
    forall k, x :: k in index && x in index[k] ==>
      x.sourceName in sources && k in serves(sources[x.sourceName]) && x.priority == sources[x.sourceName].priority
  }

  ghost predicate ServedListed<K(!new)>(index: map<K, seq<Entry>>, sources: map<string, SourceRecord>, serves: SourceRecord -> set<K>) {
    forall n, k :: n in sources && k in serves(sources[n]) ==> k in index && Entry(n, sources[n].priority) in index[k]
  }

  /** The registry invariant: the directory is keyed by source name and both indexes agree with it. */
  ghost predicate Consistent(st: State) {
    (forall n :: n in st.sources ==> st.sources[n].sourceName == n) &&
    IndexConsistent(st.customMetrics, st.sources, CustomOf) &&
    IndexConsistent(st.externalMetrics, st.sources, ExternalOf)
  }

  lemma EmptyConsistent()
    ensures Consistent(Empty)
  {
  }

  /** An entry's name is unique in a list of a consistent index, so it determines the entry. */
  lemma EntryOfName<K(!new)>(index: map<K, seq<Entry>>, sources: map<string, SourceRecord>, serves: SourceRecord -> set<K>, k: K, x: Entry, y: Entry)
    requires IndexConsistent(index, sources, serves)
    requires k in index && x in index[k] && y in index[k] && x.sourceName == y.sourceName
    ensures x == y
  {
  }

  /** Every metric a known source served has a list in a consistent index. */
  lemma PreviousIndexed<K(!new)>(index: map<K, seq<Entry>>, sources: map<string, SourceRecord>, serves: SourceRecord -> set<K>, name: string)
    requires IndexConsistent(index, sources, serves)
    ensures PreviousOf(sources, name, serves) <= index.Keys
  {
  }

  /** What the removal phase leaves in `r`: ranked lists taken from the old ones, without the source
      `name` where it no longer serves the key, still holding every other source that serves the key. */
  ghost predicate RemovalDone<K(!new)>(index: map<K, seq<Entry>>, sources: map<string, SourceRecord>, serves: SourceRecord -> set<K>,
                                       r: map<K, seq<Entry>>, name: string, current: set<K>) {
    ListsRanked(r) &&
    (forall k, x :: k in r && x in r[k] ==> k in index && x in index[k] && (k !in current ==> x.sourceName != name)) &&
    (forall n, k :: n in sources && n != name && k in serves(sources[n]) ==> k in r && Entry(n, sources[n].priority) in r[k])
  }

  /** The removal phase of an update on a consistent index: what stays is ranked, comes from the old
      lists, no longer names the source where it no longer serves the key, and still holds every
      other source that serves the key. */
  lemma RemovePhase<K(!new)>(index: map<K, seq<Entry>>, sources: map<string, SourceRecord>, serves: SourceRecord -> set<K>,
                             name: string, current: set<K>)
    requires IndexConsistent(index, sources, serves)
    ensures PreviousOf(sources, name, serves) - current <= index.Keys
    ensures RemovalDone(index, sources, serves, RemoveFromIndex(index, PreviousOf(sources, name, serves) - current, name), name, current)
  {
    var previous := PreviousOf(sources, name, serves);
    var removed := previous - current;
    var r := RemoveFromIndex(index, removed, name);
    forall k | k in index
      ensures k in removed ==> HasName(index[k], name)
      ensures k !in previous ==> !HasName(index[k], name)
    {
      if k in removed {
        var i :| 0 <= i < |index[k]| && index[k][i] == Entry(name, sources[name].priority);
      }
    }
    forall k | k in index
      ensures var l := AfterRemove(index[k], name);
        Ranked(l) && (forall x :: x in l <==> x in index[k] && x.sourceName != name)
    {
      RemoveSourceSpec(index[k], name);
    }
    forall k: K, x: Entry | k in r && x in r[k]
      ensures k in index && x in index[k] && (k !in current ==> x.sourceName != name)
    {
      if k in removed {
        assert x in AfterRemove(index[k], name);
      } else {
        assert r[k] == index[k];
      }
    }
    forall n, k | n in sources && n != name && k in serves(sources[n])
      ensures k in r && Entry(n, sources[n].priority) in r[k]
    {
      var en := Entry(n, sources[n].priority);
      if k in removed {
        assert en in AfterRemove(index[k], name);
      }
    }
  }

  /** A list the insertion phase touches: ranked, holding the new entry and the other sources'
      entries it held before. */
  lemma UpsertTouched<K(!new)>(r: map<K, seq<Entry>>, current: set<K>, e: Entry, k: K)
    requires k in current
    requires k in r ==> Ranked(r[k])
    ensures var before := if k in r then r[k] else [];
      var u := UpsertIntoIndex(r, current, e);
      k in u && Ranked(u[k]) && forall x :: x in u[k] <==> (x in before && x.sourceName != e.sourceName) || x == e
  {
    var before := if k in r then r[k] else [];
    AddOrUpdateSourceSpec(before, e);
  }

  /** The insertion phase: after the removal phase the source's new record makes the index
      consistent again. */
  lemma UpsertPhase<K(!new)>(index: map<K, seq<Entry>>, sources: map<string, SourceRecord>, serves: SourceRecord -> set<K>,
                             r: map<K, seq<Entry>>, record: SourceRecord)
    requires IndexConsistent(index, sources, serves)
    requires RemovalDone(index, sources, serves, r, record.sourceName, serves(record))
    ensures IndexConsistent(UpsertIntoIndex(r, serves(record), Entry(record.sourceName, record.priority)),
                            sources[record.sourceName := record], serves)
  {
    UpsertLists(r, serves(record), Entry(record.sourceName, record.priority));
    UpsertEntries(index, sources, serves, r, record);
    UpsertServed(sources, serves, r, record);
  }

  lemma UpsertEntries<K(!new)>(index: map<K, seq<Entry>>, sources: map<string, SourceRecord>, serves: SourceRecord -> set<K>,
                               r: map<K, seq<Entry>>, record: SourceRecord)
    requires EntriesServe(index, sources, serves)
    requires RemovalDone(index, sources, serves, r, record.sourceName, serves(record))
    ensures EntriesServe(UpsertIntoIndex(r, serves(record), Entry(record.sourceName, record.priority)),
                         sources[record.sourceName := record], serves)
  {
    var u := UpsertIntoIndex(r, serves(record), Entry(record.sourceName, record.priority));
    var sources' := sources[record.sourceName := record];
    forall k: K, x: Entry | k in u && x in u[k]
      ensures x.sourceName in sources' && k in serves(sources'[x.sourceName]) && x.priority == sources'[x.sourceName].priority
    {
      UpsertedEntryServes(index, sources, serves, r, record, k, x);
    }
  }

  /** One entry after the insertion phase: the new one, or an old entry of another source. */
  lemma UpsertedEntryServes<K(!new)>(index: map<K, seq<Entry>>, sources: map<string, SourceRecord>, serves: SourceRecord -> set<K>,
                                     r: map<K, seq<Entry>>, record: SourceRecord, k: K, x: Entry)
    requires EntriesServe(index, sources, serves)
    requires RemovalDone(index, sources, serves, r, record.sourceName, serves(record))
    requires var u := UpsertIntoIndex(r, serves(record), Entry(record.sourceName, record.priority)); k in u && x in u[k]
    ensures var sources' := sources[record.sourceName := record];
      x.sourceName in sources' && k in serves(sources'[x.sourceName]) && x.priority == sources'[x.sourceName].priority
  {
    var name := record.sourceName;
    var e := Entry(name, record.priority);
    var current := serves(record);
    UpsertedEntry(r, current, e, k, x);
    if !(k in current && x == e) {
      assert k in r && x in r[k];
      assert x in index[k] && x.sourceName != name;
    }
  }

  /** Where an entry after the insertion phase comes from. */
  lemma UpsertedEntry<K(!new)>(r: map<K, seq<Entry>>, current: set<K>, e: Entry, k: K, x: Entry)
    requires ListsRanked(r)
    requires k in UpsertIntoIndex(r, current, e) && x in UpsertIntoIndex(r, current, e)[k]
    ensures (k in current && x == e) || (k in r && x in r[k] && (k in current ==> x.sourceName != e.sourceName))
  {
    if k in current {
      UpsertTouched(r, current, e, k);
    }
  }

  lemma UpsertServed<K(!new)>(sources: map<string, SourceRecord>, serves: SourceRecord -> set<K>,
                              r: map<K, seq<Entry>>, record: SourceRecord)
    requires ListsRanked(r)
    requires forall n, k :: n in sources && n != record.sourceName && k in serves(sources[n]) ==> k in r && Entry(n, sources[n].priority) in r[k]
    ensures ServedListed(UpsertIntoIndex(r, serves(record), Entry(record.sourceName, record.priority)),
                         sources[record.sourceName := record], serves)
  {
    var name := record.sourceName;
    var e := Entry(name, record.priority);
    var current := serves(record);
    var u := UpsertIntoIndex(r, current, e);
    var sources' := sources[name := record];
    forall n: string, k: K | n in sources' && k in serves(sources'[n])
      ensures k in u && Entry(n, sources'[n].priority) in u[k]
    {
      if k in current {
        UpsertTouched(r, current, e, k);
      }
      if n != name {
        assert Entry(n, sources[n].priority) in r[k];
      }
    }
  }

  /** Every list after the insertion phase is non-empty and ranked. */
  lemma UpsertLists<K(!new)>(r: map<K, seq<Entry>>, current: set<K>, e: Entry)
    requires ListsRanked(r)
    ensures ListsRanked(UpsertIntoIndex(r, current, e))
  {
    var u := UpsertIntoIndex(r, current, e);
    forall k | k in u
      ensures u[k] != [] && Ranked(u[k])
    {
      if k in current {
        UpsertTouched(r, current, e, k);
        assert e in u[k];
      }
    }
  }

  /** Bringing a consistent index up to date for a source's new record is possible (no removal meets
      a missing list) and gives an index consistent with the directory holding that record. */
  lemma ReindexConsistent<K(!new)>(index: map<K, seq<Entry>>, sources: map<string, SourceRecord>, serves: SourceRecord -> set<K>,
                                   record: SourceRecord)
    requires IndexConsistent(index, sources, serves)
    ensures PreviousOf(sources, record.sourceName, serves) - serves(record) <= index.Keys
    ensures IndexConsistent(Reindex(index, PreviousOf(sources, record.sourceName, serves), serves(record),
                                    Entry(record.sourceName, record.priority)),
                            sources[record.sourceName := record], serves)
  {
    RemovePhase(index, sources, serves, record.sourceName, serves(record));
    var r := RemoveFromIndex(index, PreviousOf(sources, record.sourceName, serves) - serves(record), record.sourceName);
    UpsertPhase(index, sources, serves, r, record);
    assert Reindex(index, PreviousOf(sources, record.sourceName, serves), serves(record), Entry(record.sourceName, record.priority))
        == UpsertIntoIndex(r, serves(record), Entry(record.sourceName, record.priority));
  }

  /** On a consistent registry AddOrUpdateSource never removes from a missing list, and a successful
      call leaves it consistent, with the new record in the directory and the number of metrics the
      source serves as its count. */
  lemma AddOrUpdateKeepsConsistent(st: State, source: MetricsSource, newClient: Result<Client>,
                                   custom: Result<set<CustomMetricInfo>>, external: Result<set<ExternalMetricInfo>>)
    requires Consistent(st)
    ensures CanAddOrUpdate(st, source.name, custom, external)
    ensures var eff := AddOrUpdate(st, source, newClient, custom, external);
      (eff.err == None <==> newClient.Success? && custom.Success? && external.Success?) &&
      (eff.err == None ==>
         Consistent(eff.state) &&
         eff.state.sources == st.sources[source.name := SourceRecord(source.name, source.spec.priority,
                                                                    custom.value, external.value, newClient.value)] &&
         eff.count == |custom.value| + |external.value|)
  {
    var name := source.name;
    PreviousIndexed(st.customMetrics, st.sources, CustomOf, name);
    PreviousIndexed(st.externalMetrics, st.sources, ExternalOf, name);
    assert PreviousCustom(st, name) == PreviousOf(st.sources, name, CustomOf);
    assert PreviousExternal(st, name) == PreviousOf(st.sources, name, ExternalOf);
    if newClient.Success? && custom.Success? && external.Success? {
      SuccessfulUpdateConsistent(st, source, newClient.value, custom.value, external.value);
    }
  }

  /** The success case of AddOrUpdateKeepsConsistent. */
  lemma SuccessfulUpdateConsistent(st: State, source: MetricsSource, c: Client,
                                   custom: set<CustomMetricInfo>, external: set<ExternalMetricInfo>)
    requires Consistent(st)
    requires CanAddOrUpdate(st, source.name, Success(custom), Success(external))
    ensures Consistent(AddOrUpdate(st, source, Success(c), Success(custom), Success(external)).state)
  {
    var name := source.name;
    var record := SourceRecord(name, source.spec.priority, custom, external, c);
    var e := Entry(name, source.spec.priority);
    ReindexConsistent(st.customMetrics, st.sources, CustomOf, record);
    ReindexConsistent(st.externalMetrics, st.sources, ExternalOf, record);
    assert PreviousCustom(st, name) == PreviousOf(st.sources, name, CustomOf);
    assert PreviousExternal(st, name) == PreviousOf(st.sources, name, ExternalOf);
    var ci := Reindex(st.customMetrics, PreviousCustom(st, name), custom, e);
    var ei := Reindex(st.externalMetrics, PreviousExternal(st, name), external, e);
    assert AddOrUpdate(st, source, Success(c), Success(custom), Success(external)).state == State(st.sources[name := record], ci, ei);
  }

  /** Bringing a consistent index up to date for a known source that serves what it served before,
      at the same priority, changes nothing: nothing is outdated, and each list already holds the
      source's entry. */
  lemma ReindexListed<K(!new)>(index: map<K, seq<Entry>>, sources: map<string, SourceRecord>, serves: SourceRecord -> set<K>,
                               name: string)
    requires IndexConsistent(index, sources, serves) && name in sources
    ensures var current := serves(sources[name]);
      Reindex(index, current, current, Entry(name, sources[name].priority)) == index
  {
    var current := serves(sources[name]);
    var e := Entry(name, sources[name].priority);
    assert current - current == {};
    RemoveFromIndexNothing(index, name);
    assert forall k :: k in current ==> k in index && Ranked(index[k]) && e in index[k];
    UpsertListed(index, current, e);
  }

  /** Adding an entry to ranked lists that already hold it changes no list. */
  lemma UpsertListed<K(!new)>(index: map<K, seq<Entry>>, ks: set<K>, e: Entry)
    requires forall k :: k in ks ==> k in index && Ranked(index[k]) && e in index[k]
    ensures UpsertIntoIndex(index, ks, e) == index
  {
    var u := UpsertIntoIndex(index, ks, e);
    forall k | k in u
      ensures k in index && u[k] == index[k]
    {
      if k in ks {
        AddOrUpdateListed(index[k], e);
      }
    }
    assert u.Keys == index.Keys;
  }

  /** AddOrUpdateSource run again for a known source, with its priority and the metrics the directory
      records for it, succeeds and leaves both indexes as they were; only the client is replaced. */
  lemma AddOrUpdateIdempotent(st: State, source: MetricsSource, c: Client)
    requires Consistent(st)
    requires source.name in st.sources && st.sources[source.name].priority == source.spec.priority
    ensures var rec := st.sources[source.name];
      var eff := AddOrUpdate(st, source, Success(c), Success(rec.customMetricInfos), Success(rec.externalMetricInfos));
      eff.err == None &&
      eff.state.customMetrics == st.customMetrics && eff.state.externalMetrics == st.externalMetrics &&
      eff.state.sources == st.sources[source.name := rec.(client := c)]
  {
    var name := source.name;
    ReindexListed(st.customMetrics, st.sources, CustomOf, name);
    ReindexListed(st.externalMetrics, st.sources, ExternalOf, name);
  }

  /** One list after a source has left every list of an index: the ranked list without the source,
      kept exactly when something is left. */
  lemma RemovedList<K(!new)>(index: map<K, seq<Entry>>, name: string, k: K)
    requires k in index && Ranked(index[k])
    ensures var r := RemoveFromIndex(index, index.Keys, name);
      var l := AfterRemove(index[k], name);
      (k in r <==> l != []) && (k in r ==> r[k] == l) &&
      Ranked(l) && (forall x :: x in l <==> x in index[k] && x.sourceName != name)
  {
    RemoveSourceSpec(index[k], name);
  }

  lemma RemoveEverywhereRanked<K(!new)>(index: map<K, seq<Entry>>, name: string)
    requires ListsRanked(index)
    ensures ListsRanked(RemoveFromIndex(index, index.Keys, name))
  {
    var r := RemoveFromIndex(index, index.Keys, name);
    forall k | k in r
      ensures r[k] != [] && Ranked(r[k])
    {
      RemovedList(index, name, k);
    }
  }

  lemma RemoveEverywhereEntries<K(!new)>(index: map<K, seq<Entry>>, sources: map<string, SourceRecord>, serves: SourceRecord -> set<K>,
                                         name: string)
    requires ListsRanked(index) && EntriesServe(index, sources, serves)
    ensures EntriesServe(RemoveFromIndex(index, index.Keys, name), sources - {name}, serves)
    ensures forall k, x :: k in RemoveFromIndex(index, index.Keys, name) && x in RemoveFromIndex(index, index.Keys, name)[k] ==>
      x.sourceName != name
  {
    var r := RemoveFromIndex(index, index.Keys, name);
    forall k, x | k in r && x in r[k]
      ensures x in index[k] && x.sourceName != name
    {
      RemovedList(index, name, k);
    }
  }

  lemma RemoveEverywhereServed<K(!new)>(index: map<K, seq<Entry>>, sources: map<string, SourceRecord>, serves: SourceRecord -> set<K>,
                                        name: string)
    requires ListsRanked(index) && ServedListed(index, sources, serves)
    ensures ServedListed(RemoveFromIndex(index, index.Keys, name), sources - {name}, serves)
  {
    var r := RemoveFromIndex(index, index.Keys, name);
    forall n, k | n in sources - {name} && k in serves((sources - {name})[n])
      ensures k in r && Entry(n, sources[n].priority) in r[k]
    {
      RemovedList(index, name, k);
      assert Entry(n, sources[n].priority) in AfterRemove(index[k], name);
    }
  }

  /** Deleting a source from a consistent index keeps it consistent with the directory that forgot it. */
  lemma RemoveEverywhereConsistent<K(!new)>(index: map<K, seq<Entry>>, sources: map<string, SourceRecord>, serves: SourceRecord -> set<K>,
                                            name: string)
    requires IndexConsistent(index, sources, serves)
    ensures IndexConsistent(RemoveFromIndex(index, index.Keys, name), sources - {name}, serves)
    ensures forall k, x :: k in RemoveFromIndex(index, index.Keys, name) && x in RemoveFromIndex(index, index.Keys, name)[k] ==>
      x.sourceName != name
  {
    RemoveEverywhereRanked(index, name);
    RemoveEverywhereEntries(index, sources, serves, name);
    RemoveEverywhereServed(index, sources, serves, name);
  }

  /** DeleteSource keeps a consistent registry consistent, and afterwards no list names the source. */
  lemma DeleteKeepsConsistent(st: State, name: string)
    requires Consistent(st)
    ensures Consistent(Delete(st, name))
    ensures name !in Delete(st, name).sources
    ensures forall k, x :: k in Delete(st, name).customMetrics && x in Delete(st, name).customMetrics[k] ==> x.sourceName != name
    ensures forall k, x :: k in Delete(st, name).externalMetrics && x in Delete(st, name).externalMetrics[k] ==> x.sourceName != name
  {
    RemoveEverywhereConsistent(st.customMetrics, st.sources, CustomOf, name);
    RemoveEverywhereConsistent(st.externalMetrics, st.sources, ExternalOf, name);
  }

  /** A list that does not name the source is left as it was by the source's deletion. */
  lemma RemoveEverywhereUntouched<K(!new)>(index: map<K, seq<Entry>>, name: string)
    requires ListsRanked(index)
    ensures forall k :: k in index && !HasName(index[k], name) ==>
      k in RemoveFromIndex(index, index.Keys, name) && RemoveFromIndex(index, index.Keys, name)[k] == index[k]
  {
    forall k | k in index && !HasName(index[k], name)
      ensures k in RemoveFromIndex(index, index.Keys, name) && RemoveFromIndex(index, index.Keys, name)[k] == index[k]
    {
      RemovedList(index, name, k);
      RemoveSourceSpec(index[k], name);
    }
  }

  /** DeleteSource on a consistent registry leaves every list that does not name the source as it
      was, in both indexes. */
  lemma DeleteKeepsOtherLists(st: State, name: string)
    requires Consistent(st)
    ensures forall k :: k in st.customMetrics && !HasName(st.customMetrics[k], name) ==>
      k in Delete(st, name).customMetrics && Delete(st, name).customMetrics[k] == st.customMetrics[k]
    ensures forall k :: k in st.externalMetrics && !HasName(st.externalMetrics[k], name) ==>
      k in Delete(st, name).externalMetrics && Delete(st, name).externalMetrics[k] == st.externalMetrics[k]
  {
    RemoveEverywhereUntouched(st.customMetrics, name);
    RemoveEverywhereUntouched(st.externalMetrics, name);
  }

  /** What a lookup returns on a consistent index: NotFound exactly when no source serves the metric,
      no other error, and otherwise the client of the source that serves it with the highest
      priority, the alphabetically first name breaking a tie. */
  lemma ResolveOnConsistent<K(!new)>(index: map<K, seq<Entry>>, sources: map<string, SourceRecord>, serves: SourceRecord -> set<K>, k: K)
    requires IndexConsistent(index, sources, serves)
    ensures Resolve(index, sources, k) == Failure(NotFound) <==> !exists n :: n in sources && k in serves(sources[n])
    ensures Resolve(index, sources, k).Failure? ==> Resolve(index, sources, k) == Failure(NotFound)
    ensures Resolve(index, sources, k).Success? ==>
      exists n :: n in sources && k in serves(sources[n]) && Resolve(index, sources, k).value == sources[n].client &&
        forall m :: m in sources && m != n && k in serves(sources[m]) ==>
          sources[m].priority < sources[n].priority ||
          (sources[m].priority == sources[n].priority && StringLess(n, m))
  {
    if k in index {
      var best := index[k][0];
      assert best in index[k];
      BestIsHighestPriority(index[k]);
      var n := best.sourceName;
      forall m | m in sources && m != n && k in serves(sources[m])
        ensures sources[m].priority < sources[n].priority ||
                (sources[m].priority == sources[n].priority && StringLess(n, m))
      {
        var em := Entry(m, sources[m].priority);
        assert em in index[k] && em != best;
      }
    }
  }

  /** The custom lookup of a consistent registry, as the class's GetMetricsBackend returns it. */
  lemma GetMetricsBackendOnConsistent(st: State, info: CustomMetricInfo)
    requires Consistent(st)
    ensures Resolve(st.customMetrics, st.sources, info) == Failure(NotFound) <==>
      !exists n :: n in st.sources && info in st.sources[n].customMetricInfos
    ensures Resolve(st.customMetrics, st.sources, info).Success? ==>
      exists n :: n in st.sources && info in st.sources[n].customMetricInfos &&
        Resolve(st.customMetrics, st.sources, info).value == st.sources[n].client &&
        forall m :: m in st.sources && m != n && info in st.sources[m].customMetricInfos ==>
          st.sources[m].priority < st.sources[n].priority ||
          (st.sources[m].priority == st.sources[n].priority && StringLess(n, m))
  {
    ResolveOnConsistent(st.customMetrics, st.sources, CustomOf, info);
  }

  /** The external lookup of a consistent registry. */
  lemma GetExternalMetricsBackendOnConsistent(st: State, info: ExternalMetricInfo)
    requires Consistent(st)
    ensures Resolve(st.externalMetrics, st.sources, info) == Failure(NotFound) <==>
      !exists n :: n in st.sources && info in st.sources[n].externalMetricInfos
    ensures Resolve(st.externalMetrics, st.sources, info).Success? ==>
      exists n :: n in st.sources && info in st.sources[n].externalMetricInfos &&
        Resolve(st.externalMetrics, st.sources, info).value == st.sources[n].client &&
        forall m :: m in st.sources && m != n && info in st.sources[m].externalMetricInfos ==>
          st.sources[m].priority < st.sources[n].priority ||
          (st.sources[m].priority == st.sources[n].priority && StringLess(n, m))
  {
    ResolveOnConsistent(st.externalMetrics, st.sources, ExternalOf, info);
  }

  /** Registry.AddOrUpdateSource as evidently intended: every answer is in hand before anything
      changes, so that any failure leaves the registry as it was. */
  function AddOrUpdateAtomic(st: State, source: MetricsSource, newClient: Result<Client>,
                             custom: Result<set<CustomMetricInfo>>, external: Result<set<ExternalMetricInfo>>): (eff: Effect)
    requires CanAddOrUpdate(st, source.name, custom, external)
    ensures eff.err == None <==> newClient.Success? && custom.Success? && external.Success?
    ensures eff.err != None ==> eff.state == st && eff.count == 0
    ensures eff.err == None ==> eff == AddOrUpdate(st, source, newClient, custom, external)
  {
    if newClient.Failure? then Effect(st, 0, Some(newClient.error))
    else if custom.Failure? || external.Failure? then Effect(st, 0, Some(DiscoveryFailed))
    else AddOrUpdate(st, source, newClient, custom, external)
  }

  /** The corrected update keeps every consistent registry consistent, whatever the client provider
      and the backend answer. */
  lemma AtomicKeepsConsistent(st: State, source: MetricsSource, newClient: Result<Client>,
                              custom: Result<set<CustomMetricInfo>>, external: Result<set<ExternalMetricInfo>>)
    requires Consistent(st)
    ensures CanAddOrUpdate(st, source.name, custom, external)
    ensures Consistent(AddOrUpdateAtomic(st, source, newClient, custom, external).state)
  {
    AddOrUpdateKeepsConsistent(st, source, newClient, custom, external);
  }

  /** As written, a failure to list the external metrics leaves a half-done update behind. Source
      "a" serves custom metric m and declares both kinds; it comes back serving no custom metric and
      its external listing fails. The call reports the failure, yet m's list is gone while the
      directory still says that "a" serves m: the registry is no longer consistent, m is NotFound,
      and the retry of the same update would remove "a" from a list that no longer exists (a nil
      dereference in the Go code). */
  lemma PartialUpdateBreaksRetry(c: Client, m: CustomMetricInfo)
    ensures var st := PartialFixture(c, m);
      Consistent(st) &&
      CanAddOrUpdate(st, "a", Success({}), Failure(DiscoveryFailed)) &&
      var eff := AddOrUpdate(st, PartialSource(c), Success(c), Success({}), Failure(DiscoveryFailed));
      eff.err == Some(DiscoveryFailed) &&
      !Consistent(eff.state) &&
      Resolve(eff.state.customMetrics, eff.state.sources, m) == Failure(NotFound) &&
      !CanAddOrUpdate(eff.state, "a", Success({}), Success({}))
  {
    PartialFixtureConsistent(c, m);
    PartialUpdateEffect(c, m);
    PartialUpdateInconsistent(c, m);
  }

  /** Source "a" at priority 100, serving custom metric m and declaring both kinds. */
  function PartialFixture(c: Client, m: CustomMetricInfo): State {
    State(map["a" := SourceRecord("a", 100, {m}, {}, c)], map[m := [Entry("a", 100)]], map[])
  }

  function PartialSource(c: Client): MetricsSource {
    MetricsSource("a", "default", MetricsSourceSpec(c.backend, false, 100, [CustomMetrics, ExternalMetrics]))
  }

  lemma PartialFixtureConsistent(c: Client, m: CustomMetricInfo)
    ensures Consistent(PartialFixture(c, m))
  {
    assert Ranked([Entry("a", 100)]);
  }

  /** The failed call leaves the directory as it was and the custom index empty. */
  lemma PartialUpdateEffect(c: Client, m: CustomMetricInfo)
    ensures CanAddOrUpdate(PartialFixture(c, m), "a", Success({}), Failure(DiscoveryFailed))
    ensures AddOrUpdate(PartialFixture(c, m), PartialSource(c), Success(c), Success({}), Failure(DiscoveryFailed)) ==
      Effect(PartialFixture(c, m).(customMetrics := map[]), 0, Some(DiscoveryFailed))
  {
    var st := PartialFixture(c, m);
    var e := Entry("a", 100);
    assert AfterRemove([e], "a") == [] by {
      assert [e][0].sourceName == "a";
      assert HasName([e], "a");
      assert RemoveLast([e], "a") == [];
    }
    assert RemoveFromIndex(st.customMetrics, {m}, "a") == map[];
    UpsertNothing<CustomMetricInfo>(map[], e);
  }

  /** What the half-done update leaves: the directory still says that "a" serves m, m has no list,
      so it is NotFound, and the removal the retry would start has no list to work on. */
  lemma PartialUpdateInconsistent(c: Client, m: CustomMetricInfo)
    ensures var st := PartialFixture(c, m).(customMetrics := map[]);
      !Consistent(st) && Resolve(st.customMetrics, st.sources, m) == Failure(NotFound) &&
      !CanAddOrUpdate(st, "a", Success({}), Success({}))
  {
    var st := PartialFixture(c, m).(customMetrics := map[]);
    var record := SourceRecord("a", 100, {m}, {}, c);
    assert st.sources == map["a" := record];
    assert !ServedListed(st.customMetrics, st.sources, CustomOf) by {
      assert "a" in st.sources && st.sources["a"] == record;
      assert m in CustomOf(record) && m !in st.customMetrics;
    }
    assert PreviousCustom(st, "a") == {m};
  }
}
