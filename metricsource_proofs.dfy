/** What the pkg/controllers/metricsource operations preserve and return: sorted lists with unique
    namespaced names, the agreement of the backend state with the two indexes, and what a lookup
    then gives; and what DeleteService, as written, breaks. */
module MetricsourceProofs {
  import opened Common
  import opened GoStrings
  import opened Sorting
  import opened MetricsSourceTypes
  import opened MetricsClient
  import opened MetricsourceServices
  import opened MetricsourceRegistry

  function CustomOf(b: BackendState): set<CustomMetricInfo> {
    b.customMetricInfos
  }

  function ExternalOf(b: BackendState): set<ExternalMetricInfo> {
    b.externalMetricInfos
  }

  /** What a source served before an update, as far as the backend state knows. */
  function PreviousOf<K>(backends: map<NamespacedName, BackendState>, nn: NamespacedName, serves: BackendState -> set<K>): set<K> {
    if nn in backends then serves(backends[nn]) else {}
  }

  /** Every list is sorted and names each source once; a list may be empty. */
  ghost predicate ListsSorted<K(!new)>(index: map<K, seq<MetricsSource>>) {
    forall k :: k in index ==> SortedBy(index[k], Less) && KeysUnique(index[k])
  }

  ghost predicate EntriesServe<K(!new)>(index: map<K, seq<MetricsSource>>, backends: map<NamespacedName, BackendState>,
                                        serves: BackendState -> set<K>) {
    forall k, x :: k in index && x in index[k] ==>
      NamespacedNamed(x) in backends && k in serves(backends[NamespacedNamed(x)]) &&
      x.spec.priority == backends[NamespacedNamed(x)].priority
  }

  ghost predicate ServedListed<K(!new)>(index: map<K, seq<MetricsSource>>, backends: map<NamespacedName, BackendState>,
                                        serves: BackendState -> set<K>) {
    forall nn, k :: nn in backends && k in serves(backends[nn]) ==> k in index && HasKey(index[k], nn)
  }

  /** An index agrees with the backend state: its lists are sorted with unique names, every source
      listed has a backend state that serves the key at the source's priority, and every metric a
      backend serves lists that backend. */
  ghost predicate IndexConsistent<K(!new)>(index: map<K, seq<MetricsSource>>, backends: map<NamespacedName, BackendState>,
                                           serves: BackendState -> set<K>) {
    ListsSorted(index) && EntriesServe(index, backends, serves) && ServedListed(index, backends, serves)
  }

  ghost predicate Consistent(st: State) {
    IndexConsistent(st.customMetrics, st.backends, CustomOf) &&
    IndexConsistent(st.externalMetrics, st.backends, ExternalOf)
  }

  lemma EmptyConsistent()
    ensures Consistent(Empty)
  {
  }

  lemma HasKeyOfMember(list: seq<MetricsSource>, x: MetricsSource)
    requires x in list
    ensures HasKey(list, NamespacedNamed(x))
  {
    var i :| 0 <= i < |list| && list[i] == x;
  }

  lemma MemberOfHasKey(list: seq<MetricsSource>, nn: NamespacedName) returns (x: MetricsSource)
    requires HasKey(list, nn)
    ensures x in list && NamespacedNamed(x) == nn
  {
    var i :| 0 <= i < |list| && NamespacedNamed(list[i]) == nn;
    x := list[i];
  }

  /** Every metric a known source served has a list in a consistent index. */
  lemma PreviousIndexed<K(!new)>(index: map<K, seq<MetricsSource>>, backends: map<NamespacedName, BackendState>,
                                 serves: BackendState -> set<K>, nn: NamespacedName)
    requires ServedListed(index, backends, serves)
    ensures PreviousOf(backends, nn, serves) <= index.Keys
  {
  }

  /** One list of an index brought up to date: a metric the source serves lists it exactly once, as
      the new object, in a sorted list; a metric it no longer serves keeps its list, without the
      source and with every other source; any other list is untouched. */
  lemma ReindexAt<K(!new)>(index: map<K, seq<MetricsSource>>, previous: set<K>, current: set<K>, s: MetricsSource, k: K)
    requires previous - current <= index.Keys
    requires k in index ==> KeysUnique(index[k])
    ensures var r := Reindex(index, previous, current, s);
      (k in current ==> k in r && s in r[k] && SortedBy(r[k], Less) && KeysUnique(r[k]) &&
                        forall x :: x in r[k] && NamespacedNamed(x) == NamespacedNamed(s) ==> x == s)
    ensures var r := Reindex(index, previous, current, s);
      (k in previous - current ==> k in r && !HasKey(r[k], NamespacedNamed(s)) &&
                                   forall x :: x in r[k] <==> x in index[k] && NamespacedNamed(x) != NamespacedNamed(s))
    ensures var r := Reindex(index, previous, current, s);
      (k !in previous && k !in current ==> (k in r <==> k in index) && (k in index ==> r[k] == index[k]))
  {
    var nn := NamespacedNamed(s);
    var r0 := RemoveFromLists(index, previous - current, nn);
    var r := Reindex(index, previous, current, s);
    if k in current {
      var before := if k in r0 then r0[k] else [];
      assert k in r0 ==> r0[k] == index[k];
      AddOrUpdateSourceSpec(before, s);
      assert r[k] == AfterAddOrUpdate(before, s);
    } else if k in previous {
      RemoveSourceSpec(index[k], nn);
      assert r[k] == AfterRemove(index[k], nn);
      if HasKey(r[k], nn) {
        var x := MemberOfHasKey(r[k], nn);
      }
    }
  }

  /** An update keeps every list sorted with unique names, on every path of AddOrUpdateService. */
  lemma ReindexSorted<K(!new)>(index: map<K, seq<MetricsSource>>, previous: set<K>, current: set<K>, s: MetricsSource)
    requires previous - current <= index.Keys
    requires ListsSorted(index)
    ensures ListsSorted(Reindex(index, previous, current, s))
  {
    var r := Reindex(index, previous, current, s);
    forall k | k in r
      ensures SortedBy(r[k], Less) && KeysUnique(r[k])
    {
      ReindexAt(index, previous, current, s, k);
      if k in previous - current {
        RemoveKeepsSorted(index[k], NamespacedNamed(s));
        RemoveSourceSpec(index[k], NamespacedNamed(s));
        assert r[k] == AfterRemove(index[k], NamespacedNamed(s));
      }
    }
  }

  /** Whatever the client provider and the backend answer, AddOrUpdateService keeps both indexes
      sorted with unique names. */
  lemma AddOrUpdateKeepsListsSorted(st: State, source: MetricsSource, newClient: Result<Client>,
                                    custom: Result<set<CustomMetricInfo>>, external: Result<set<ExternalMetricInfo>>)
    requires ListsSorted(st.customMetrics) && ListsSorted(st.externalMetrics)
    requires CanAddOrUpdate(st, NamespacedNamed(source), custom, external)
    ensures var eff := AddOrUpdate(st, source, newClient, custom, external);
      ListsSorted(eff.state.customMetrics) && ListsSorted(eff.state.externalMetrics)
  {
    var nn := NamespacedNamed(source);
    if newClient.Success? && custom.Success? {
      ReindexSorted(st.customMetrics, PreviousCustom(st, nn), custom.value, source);
      if external.Success? {
        ReindexSorted(st.externalMetrics, PreviousExternal(st, nn), external.value, source);
      }
    }
  }

  /** The outcome of AddOrUpdateService on each path: a failure to build the client or to list the
      custom metrics changes nothing and counts nothing; a failure to list the external metrics
      leaves the backend state and the external index as they were but returns the custom count;
      success stores the new backend state and counts every metric the source serves. */
  lemma AddOrUpdateOutcome(st: State, source: MetricsSource, newClient: Result<Client>,
                           custom: Result<set<CustomMetricInfo>>, external: Result<set<ExternalMetricInfo>>)
    requires CanAddOrUpdate(st, NamespacedNamed(source), custom, external)
    ensures var eff := AddOrUpdate(st, source, newClient, custom, external);
      (eff.err == None <==> newClient.Success? && custom.Success? && external.Success?) &&
      (newClient.Failure? || custom.Failure? ==> eff.state == st && eff.count == 0) &&
      (newClient.Success? && custom.Success? && external.Failure? ==>
         eff.state.backends == st.backends && eff.state.externalMetrics == st.externalMetrics &&
         eff.count == |custom.value|) &&
      (eff.err == None ==>
         eff.state.backends == st.backends[NamespacedNamed(source) := BackendState(source.spec.priority, custom.value,
                                                                                  external.value, newClient.value)] &&
         eff.count == |custom.value| + |external.value|)
  {
  }

  /** What the removal phase of an update leaves in `r`: the same keys, sorted lists taken from the
      old ones, without `nn` where it no longer serves the key, still listing every other backend
      that serves the key. */
  ghost predicate RemovalDone<K(!new)>(index: map<K, seq<MetricsSource>>, backends: map<NamespacedName, BackendState>,
                                       serves: BackendState -> set<K>, r: map<K, seq<MetricsSource>>,
                                       nn: NamespacedName, current: set<K>) {
    ListsSorted(r) &&
    (forall k, x :: k in r && x in r[k] ==> k in index && x in index[k] && (k !in current ==> NamespacedNamed(x) != nn)) &&
    (forall m, k :: m in backends && m != nn && k in serves(backends[m]) ==> k in r && HasKey(r[k], m))
  }

  /** One list after the removal phase. */
  lemma RemovedAt<K(!new)>(index: map<K, seq<MetricsSource>>, ks: set<K>, nn: NamespacedName, k: K)
    requires ks <= index.Keys && k in index && SortedBy(index[k], Less) && KeysUnique(index[k])
    ensures var r := RemoveFromLists(index, ks, nn);
      k in r && SortedBy(r[k], Less) && KeysUnique(r[k]) &&
      (forall x :: x in r[k] ==> x in index[k]) &&
      (k in ks ==> forall x :: x in r[k] ==> NamespacedNamed(x) != nn) &&
      (forall m :: m != nn && HasKey(index[k], m) ==> HasKey(r[k], m))
  {
    var r := RemoveFromLists(index, ks, nn);
    if k in ks {
      RemoveSourceSpec(index[k], nn);
      RemoveKeepsSorted(index[k], nn);
      assert r[k] == AfterRemove(index[k], nn);
      forall m | m != nn && HasKey(index[k], m)
        ensures HasKey(r[k], m)
      {
        var x := MemberOfHasKey(index[k], m);
        HasKeyOfMember(r[k], x);
      }
    }
  }

  lemma RemovePhase<K(!new)>(index: map<K, seq<MetricsSource>>, backends: map<NamespacedName, BackendState>,
                             serves: BackendState -> set<K>, nn: NamespacedName, current: set<K>)
    requires IndexConsistent(index, backends, serves)
    ensures PreviousOf(backends, nn, serves) - current <= index.Keys
    ensures RemovalDone(index, backends, serves, RemoveFromLists(index, PreviousOf(backends, nn, serves) - current, nn), nn, current)
  {
    var previous := PreviousOf(backends, nn, serves);
    var removed := previous - current;
    PreviousIndexed(index, backends, serves, nn);
    var r := RemoveFromLists(index, removed, nn);
    forall k | k in r
      ensures SortedBy(r[k], Less) && KeysUnique(r[k])
    {
      RemovedAt(index, removed, nn, k);
    }
    forall k, x | k in r && x in r[k]
      ensures k in index && x in index[k] && (k !in current ==> NamespacedNamed(x) != nn)
    {
      RemovedAt(index, removed, nn, k);
      if k !in current && k !in previous {
        assert NamespacedNamed(x) in backends && k in serves(backends[NamespacedNamed(x)]);
      }
    }
    forall m, k | m in backends && m != nn && k in serves(backends[m])
      ensures k in r && HasKey(r[k], m)
    {
      RemovedAt(index, removed, nn, k);
    }
  }

  /** A list the insertion phase touches: sorted with unique names, holding the new source and the
      other sources it held before. */
  lemma UpsertTouched<K(!new)>(r: map<K, seq<MetricsSource>>, current: set<K>, s: MetricsSource, k: K)
    requires k in current
    requires k in r ==> KeysUnique(r[k])
    ensures var before := if k in r then r[k] else [];
      var u := UpsertIntoLists(r, current, s);
      k in u && SortedBy(u[k], Less) && KeysUnique(u[k]) &&
      forall x :: x in u[k] <==> (x in before && NamespacedNamed(x) != NamespacedNamed(s)) || x == s
  {
    var before := if k in r then r[k] else [];
    AddOrUpdateSourceSpec(before, s);
  }

  /** Where a source listed after the insertion phase comes from. */
  lemma UpsertedEntry<K(!new)>(r: map<K, seq<MetricsSource>>, current: set<K>, s: MetricsSource, k: K, x: MetricsSource)
    requires ListsSorted(r)
    requires k in UpsertIntoLists(r, current, s) && x in UpsertIntoLists(r, current, s)[k]
    ensures (k in current && x == s) || (k in r && x in r[k] && (k in current ==> NamespacedNamed(x) != NamespacedNamed(s)))
  {
    if k in current {
      UpsertTouched(r, current, s, k);
    }
  }

  lemma UpsertLists<K(!new)>(r: map<K, seq<MetricsSource>>, current: set<K>, s: MetricsSource)
    requires ListsSorted(r)
    ensures ListsSorted(UpsertIntoLists(r, current, s))
  {
    var u := UpsertIntoLists(r, current, s);
    forall k | k in u
      ensures SortedBy(u[k], Less) && KeysUnique(u[k])
    {
      if k in current {
        UpsertTouched(r, current, s, k);
      }
    }
  }

  /** One source after the insertion phase: the new object, or one of another backend listed before. */
  lemma UpsertedEntryServes<K(!new)>(index: map<K, seq<MetricsSource>>, backends: map<NamespacedName, BackendState>,
                                     serves: BackendState -> set<K>, r: map<K, seq<MetricsSource>>,
                                     s: MetricsSource, backend: BackendState, k: K, x: MetricsSource)
    requires EntriesServe(index, backends, serves)
    requires RemovalDone(index, backends, serves, r, NamespacedNamed(s), serves(backend))
    requires backend.priority == s.spec.priority
    requires var u := UpsertIntoLists(r, serves(backend), s); k in u && x in u[k]
    ensures var backends' := backends[NamespacedNamed(s) := backend];
      NamespacedNamed(x) in backends' && k in serves(backends'[NamespacedNamed(x)]) &&
      x.spec.priority == backends'[NamespacedNamed(x)].priority
  {
    var nn := NamespacedNamed(s);
    var current := serves(backend);
    UpsertedEntry(r, current, s, k, x);
    if !(k in current && x == s) {
      assert k in r && x in r[k];
      assert x in index[k] && NamespacedNamed(x) != nn;
    }
  }

  lemma UpsertEntries<K(!new)>(index: map<K, seq<MetricsSource>>, backends: map<NamespacedName, BackendState>,
                               serves: BackendState -> set<K>, r: map<K, seq<MetricsSource>>,
                               s: MetricsSource, backend: BackendState)
    requires EntriesServe(index, backends, serves)
    requires RemovalDone(index, backends, serves, r, NamespacedNamed(s), serves(backend))
    requires backend.priority == s.spec.priority
    ensures EntriesServe(UpsertIntoLists(r, serves(backend), s), backends[NamespacedNamed(s) := backend], serves)
  {
    var u := UpsertIntoLists(r, serves(backend), s);
    var backends' := backends[NamespacedNamed(s) := backend];
    forall k: K, x: MetricsSource | k in u && x in u[k]
      ensures NamespacedNamed(x) in backends' && k in serves(backends'[NamespacedNamed(x)]) &&
              x.spec.priority == backends'[NamespacedNamed(x)].priority
    {
      UpsertedEntryServes(index, backends, serves, r, s, backend, k, x);
    }
  }

  /** One served metric after the insertion phase still lists its backend. */
  lemma UpsertedServed<K(!new)>(backends: map<NamespacedName, BackendState>, serves: BackendState -> set<K>,
                                r: map<K, seq<MetricsSource>>, s: MetricsSource, backend: BackendState,
                                m: NamespacedName, k: K)
    requires ListsSorted(r)
    requires forall m, k :: m in backends && m != NamespacedNamed(s) && k in serves(backends[m]) ==> k in r && HasKey(r[k], m)
    requires var backends' := backends[NamespacedNamed(s) := backend]; m in backends' && k in serves(backends'[m])
    ensures var u := UpsertIntoLists(r, serves(backend), s); k in u && HasKey(u[k], m)
  {
    var nn := NamespacedNamed(s);
    var current := serves(backend);
    var u := UpsertIntoLists(r, current, s);
    if m == nn {
      UpsertTouched(r, current, s, k);
      HasKeyOfMember(u[k], s);
    } else {
      assert k in r && HasKey(r[k], m);
      if k in current {
        UpsertTouched(r, current, s, k);
        var x := MemberOfHasKey(r[k], m);
        assert x in u[k];
        HasKeyOfMember(u[k], x);
      }
    }
  }

  lemma UpsertServed<K(!new)>(backends: map<NamespacedName, BackendState>, serves: BackendState -> set<K>,
                              r: map<K, seq<MetricsSource>>, s: MetricsSource, backend: BackendState)
    requires ListsSorted(r)
    requires forall m, k :: m in backends && m != NamespacedNamed(s) && k in serves(backends[m]) ==> k in r && HasKey(r[k], m)
    ensures ServedListed(UpsertIntoLists(r, serves(backend), s), backends[NamespacedNamed(s) := backend], serves)
  {
    var u := UpsertIntoLists(r, serves(backend), s);
    var backends' := backends[NamespacedNamed(s) := backend];
    forall m, k | m in backends' && k in serves(backends'[m])
      ensures k in u && HasKey(u[k], m)
    {
      UpsertedServed(backends, serves, r, s, backend, m, k);
    }
    ServedListedOfEach(u, backends', serves);
  }

  lemma ServedListedOfEach<K(!new)>(u: map<K, seq<MetricsSource>>, backends: map<NamespacedName, BackendState>,
                                    serves: BackendState -> set<K>)
    requires forall m, k :: m in backends && k in serves(backends[m]) ==> k in u && HasKey(u[k], m)
    ensures ServedListed(u, backends, serves)
  {
  }

  lemma UpsertPhase<K(!new)>(index: map<K, seq<MetricsSource>>, backends: map<NamespacedName, BackendState>,
                             serves: BackendState -> set<K>, r: map<K, seq<MetricsSource>>,
                             s: MetricsSource, backend: BackendState)
    requires IndexConsistent(index, backends, serves)
    requires RemovalDone(index, backends, serves, r, NamespacedNamed(s), serves(backend))
    requires backend.priority == s.spec.priority
    ensures IndexConsistent(UpsertIntoLists(r, serves(backend), s), backends[NamespacedNamed(s) := backend], serves)
  {
    UpsertLists(r, serves(backend), s);
    UpsertEntries(index, backends, serves, r, s, backend);
    UpsertServed(backends, serves, r, s, backend);
  }

  /** Every list of `ks` holds the object `s` itself. The lists keep copies of the MetricsSource
      objects they were given, so this is what a repeated reconciliation of an unchanged object meets. */
  ghost predicate ListsHold<K(!new)>(index: map<K, seq<MetricsSource>>, ks: set<K>, s: MetricsSource) {
    forall k :: k in ks ==> k in index && s in index[k]
  }

  /** Bringing a consistent index up to date for a source that serves what it served before, when
      every list it serves already holds it, changes nothing. */
  lemma ReindexListed<K(!new)>(index: map<K, seq<MetricsSource>>, backends: map<NamespacedName, BackendState>,
                               serves: BackendState -> set<K>, s: MetricsSource)
    requires IndexConsistent(index, backends, serves) && NamespacedNamed(s) in backends
    requires ListsHold(index, serves(backends[NamespacedNamed(s)]), s)
    ensures var current := serves(backends[NamespacedNamed(s)]);
      Reindex(index, current, current, s) == index
  {
    var current := serves(backends[NamespacedNamed(s)]);
    assert current - current == {};
    RemoveFromListsNothing(index, NamespacedNamed(s));
    var u := UpsertIntoLists(index, current, s);
    forall k | k in u
      ensures k in index && u[k] == index[k]
    {
      if k in current {
        AddOrUpdateListed(index[k], s);
      }
    }
    assert u.Keys == index.Keys;
  }

  /** AddOrUpdateService run again for an object that every list it serves already holds, with the
      priority and the metrics the backend state records, succeeds and leaves both indexes as they
      were; only the client is replaced. */
  lemma AddOrUpdateIdempotent(st: State, source: MetricsSource, c: Client)
    requires Consistent(st)
    requires NamespacedNamed(source) in st.backends && st.backends[NamespacedNamed(source)].priority == source.spec.priority
    requires ListsHold(st.customMetrics, st.backends[NamespacedNamed(source)].customMetricInfos, source)
    requires ListsHold(st.externalMetrics, st.backends[NamespacedNamed(source)].externalMetricInfos, source)
    ensures var b := st.backends[NamespacedNamed(source)];
      var eff := AddOrUpdate(st, source, Success(c), Success(b.customMetricInfos), Success(b.externalMetricInfos));
      eff.err == None &&
      eff.state.customMetrics == st.customMetrics && eff.state.externalMetrics == st.externalMetrics &&
      eff.state.backends == st.backends[NamespacedNamed(source) := b.(client := c)]
  {
    ReindexListed(st.customMetrics, st.backends, CustomOf, source);
    ReindexListed(st.externalMetrics, st.backends, ExternalOf, source);
  }

  /** Bringing a consistent index up to date for a source's new backend state is possible (no
      removal meets a missing list) and gives an index consistent with the new state. */
  lemma ReindexConsistent<K(!new)>(index: map<K, seq<MetricsSource>>, backends: map<NamespacedName, BackendState>,
                                   serves: BackendState -> set<K>, s: MetricsSource, backend: BackendState)
    requires IndexConsistent(index, backends, serves)
    requires backend.priority == s.spec.priority
    ensures PreviousOf(backends, NamespacedNamed(s), serves) - serves(backend) <= index.Keys
    ensures IndexConsistent(Reindex(index, PreviousOf(backends, NamespacedNamed(s), serves), serves(backend), s),
                            backends[NamespacedNamed(s) := backend], serves)
  {
    var nn := NamespacedNamed(s);
    var previous := PreviousOf(backends, nn, serves);
    RemovePhase(index, backends, serves, nn, serves(backend));
    var r := RemoveFromLists(index, previous - serves(backend), nn);
    UpsertPhase(index, backends, serves, r, s, backend);
    assert Reindex(index, previous, serves(backend), s) == UpsertIntoLists(r, serves(backend), s);
  }

  /** On a consistent registry AddOrUpdateService never calls RemoveSource on a missing list, and a
      successful call leaves the registry consistent. */
  lemma AddOrUpdateKeepsConsistent(st: State, source: MetricsSource, newClient: Result<Client>,
                                   custom: Result<set<CustomMetricInfo>>, external: Result<set<ExternalMetricInfo>>)
    requires Consistent(st)
    ensures CanAddOrUpdate(st, NamespacedNamed(source), custom, external)
    ensures var eff := AddOrUpdate(st, source, newClient, custom, external);
      eff.err == None ==> Consistent(eff.state)
  {
    var nn := NamespacedNamed(source);
    PreviousIndexed(st.customMetrics, st.backends, CustomOf, nn);
    PreviousIndexed(st.externalMetrics, st.backends, ExternalOf, nn);
    assert PreviousCustom(st, nn) == PreviousOf(st.backends, nn, CustomOf);
    assert PreviousExternal(st, nn) == PreviousOf(st.backends, nn, ExternalOf);
    if newClient.Success? && custom.Success? && external.Success? {
      SuccessfulUpdateConsistent(st, source, newClient.value, custom.value, external.value);
    }
  }

  lemma SuccessfulUpdateConsistent(st: State, source: MetricsSource, c: Client,
                                   custom: set<CustomMetricInfo>, external: set<ExternalMetricInfo>)
    requires Consistent(st)
    requires CanAddOrUpdate(st, NamespacedNamed(source), Success(custom), Success(external))
    ensures Consistent(AddOrUpdate(st, source, Success(c), Success(custom), Success(external)).state)
  {
    var nn := NamespacedNamed(source);
    var backend := BackendState(source.spec.priority, custom, external, c);
    ReindexConsistent(st.customMetrics, st.backends, CustomOf, source, backend);
    ReindexConsistent(st.externalMetrics, st.backends, ExternalOf, source, backend);
    assert PreviousCustom(st, nn) == PreviousOf(st.backends, nn, CustomOf);
    assert PreviousExternal(st, nn) == PreviousOf(st.backends, nn, ExternalOf);
    var ci := Reindex(st.customMetrics, PreviousCustom(st, nn), custom, source);
    var ei := Reindex(st.externalMetrics, PreviousExternal(st, nn), external, source);
    assert AddOrUpdate(st, source, Success(c), Success(custom), Success(external)).state == State(st.backends[nn := backend], ci, ei);
  }

  /** What a lookup returns on a consistent index: an error exactly when no backend serves the
      metric, never MissingProperties, NoBackend only for a list left empty, and otherwise the client
      of a backend that serves the metric with the LOWEST priority among those that do. */
  lemma ResolveOnConsistent<K(!new)>(index: map<K, seq<MetricsSource>>, backends: map<NamespacedName, BackendState>,
                                     serves: BackendState -> set<K>, k: K)
    requires IndexConsistent(index, backends, serves)
    ensures Resolve(index, backends, k).Failure? <==> !exists nn :: nn in backends && k in serves(backends[nn])
    ensures Resolve(index, backends, k) != Failure(MissingProperties)
    ensures Resolve(index, backends, k) == Failure(NoBackend) ==> k in index && index[k] == []
    ensures Resolve(index, backends, k).Success? ==>
      exists nn :: nn in backends && k in serves(backends[nn]) && Resolve(index, backends, k).value == backends[nn].client &&
        forall m :: m in backends && k in serves(backends[m]) ==> backends[nn].priority <= backends[m].priority
  {
    if exists nn :: nn in backends && k in serves(backends[nn]) {
      var nn :| nn in backends && k in serves(backends[nn]);
      var x := MemberOfHasKey(index[k], nn);
    }
    if k in index && index[k] != [] {
      var best := index[k][0];
      assert best in index[k];
      BestIsLowestPriority(index[k]);
      var nn := NamespacedNamed(best);
      forall m | m in backends && k in serves(backends[m])
        ensures backends[nn].priority <= backends[m].priority
      {
        var x := MemberOfHasKey(index[k], m);
      }
    }
  }

  /** The custom lookup of a consistent registry, as the class's GetMetricsBackend returns it. */
  lemma GetMetricsBackendOnConsistent(st: State, info: CustomMetricInfo)
    requires Consistent(st)
    ensures Resolve(st.customMetrics, st.backends, info).Failure? <==>
      !exists nn :: nn in st.backends && info in st.backends[nn].customMetricInfos
    ensures Resolve(st.customMetrics, st.backends, info) != Failure(MissingProperties)
    ensures Resolve(st.customMetrics, st.backends, info).Success? ==>
      exists nn :: nn in st.backends && info in st.backends[nn].customMetricInfos &&
        Resolve(st.customMetrics, st.backends, info).value == st.backends[nn].client &&
        forall m :: m in st.backends && info in st.backends[m].customMetricInfos ==>
          st.backends[nn].priority <= st.backends[m].priority
  {
    ResolveOnConsistent(st.customMetrics, st.backends, CustomOf, info);
  }

  /** The external lookup of a consistent registry. */
  lemma GetExternalMetricsBackendOnConsistent(st: State, info: ExternalMetricInfo)
    requires Consistent(st)
    ensures Resolve(st.externalMetrics, st.backends, info).Failure? <==>
      !exists nn :: nn in st.backends && info in st.backends[nn].externalMetricInfos
    ensures Resolve(st.externalMetrics, st.backends, info) != Failure(MissingProperties)
    ensures Resolve(st.externalMetrics, st.backends, info).Success? ==>
      exists nn :: nn in st.backends && info in st.backends[nn].externalMetricInfos &&
        Resolve(st.externalMetrics, st.backends, info).value == st.backends[nn].client &&
        forall m :: m in st.backends && info in st.backends[m].externalMetricInfos ==>
          st.backends[nn].priority <= st.backends[m].priority
  {
    ResolveOnConsistent(st.externalMetrics, st.backends, ExternalOf, info);
  }

  /** DeleteService as written, on a consistent registry: every metric that another backend also
      serves loses its list, so its lookup is NotFound although that backend still serves it; the
      metrics only the deleted backend served keep an empty list; the external index is untouched. */
  lemma DeleteDropsSharedMetrics(st: State, nn: NamespacedName, info: CustomMetricInfo, other: NamespacedName)
    requires Consistent(st)
    requires other in st.backends && other != nn && info in st.backends[other].customMetricInfos
    ensures other in Delete(st, nn).backends && info in Delete(st, nn).backends[other].customMetricInfos
    ensures info !in Delete(st, nn).customMetrics
    ensures Resolve(Delete(st, nn).customMetrics, Delete(st, nn).backends, info) == Failure(NotFound)
  {
    var x := MemberOfHasKey(st.customMetrics[info], other);
    RemoveSourceSpec(st.customMetrics[info], nn);
    assert x in AfterRemove(st.customMetrics[info], nn);
  }

  /** DeleteService as written keeps exactly the custom keys whose list it empties, each with an
      empty list, and leaves the external index as it was. */
  lemma DeleteKeepsOnlyEmptied(st: State, nn: NamespacedName, info: CustomMetricInfo)
    ensures info in Delete(st, nn).customMetrics <==>
      info in st.customMetrics && AfterRemove(st.customMetrics[info], nn) == []
    ensures info in Delete(st, nn).customMetrics ==> Delete(st, nn).customMetrics[info] == []
    ensures Delete(st, nn).externalMetrics == st.externalMetrics
    ensures Delete(st, nn).backends == st.backends - {nn}
  {
  }

  /** Two sources whose backends the fixture below registers: distinct namespaced names, `a` ranked
      first. */
  ghost predicate TwoSources(a: MetricsSource, b: MetricsSource) {
    NamespacedNamed(a) != NamespacedNamed(b) && Less(a, b)
  }

  function FixtureSource(name: string, priority: int): MetricsSource {
    MetricsSource(name, "ns", MetricsSourceSpec(MetricsServiceBackend("ns", name, "", ServiceBackendPort(None)), false, priority,
                                                [CustomMetrics, ExternalMetrics]))
  }

  /** Sources "a" in priority 1 and "b" in priority 2, both in namespace "ns", are such a pair. */
  lemma TwoSourcesExist()
    ensures TwoSources(FixtureSource("a", 1), FixtureSource("b", 2))
  {
  }

  /** The backends of `a` and `b` both serve custom metric m; that of `a` also serves external
      metric e. The registry is consistent (DeleteFixtureConsistent). */
  function DeleteFixture(a: MetricsSource, b: MetricsSource, ca: Client, cb: Client, m: CustomMetricInfo, e: ExternalMetricInfo): State {
    State(map[NamespacedNamed(a) := BackendState(a.spec.priority, {m}, {e}, ca),
              NamespacedNamed(b) := BackendState(b.spec.priority, {m}, {}, cb)],
          map[m := [a, b]],
          map[e := [a]])
  }

  /** The two lists of the fixture are sorted and name each source once. */
  lemma DeleteFixtureLists(a: MetricsSource, b: MetricsSource)
    requires TwoSources(a, b)
    ensures SortedBy([a, b], Less) && KeysUnique([a, b]) && SortedBy([a], Less) && KeysUnique([a])
    ensures HasKey([a, b], NamespacedNamed(a)) && HasKey([a, b], NamespacedNamed(b)) && HasKey([a], NamespacedNamed(a))
  {
    LessIsStrictOrder();
    HasKeyOfMember([a, b], a);
    HasKeyOfMember([a, b], b);
    HasKeyOfMember([a], a);
  }

  lemma DeleteFixtureConsistent(a: MetricsSource, b: MetricsSource, ca: Client, cb: Client, m: CustomMetricInfo, e: ExternalMetricInfo)
    requires TwoSources(a, b)
    ensures Consistent(DeleteFixture(a, b, ca, cb, m, e))
  {
    var st := DeleteFixture(a, b, ca, cb, m, e);
    DeleteFixtureLists(a, b);
    FixtureCustomConsistent(a, b, st.backends, m);
    FixtureExternalConsistent(a, b, st.backends, e);
  }

  lemma FixtureCustomConsistent(a: MetricsSource, b: MetricsSource, backends: map<NamespacedName, BackendState>, m: CustomMetricInfo)
    requires TwoSources(a, b)
    requires backends.Keys == {NamespacedNamed(a), NamespacedNamed(b)}
    requires backends[NamespacedNamed(a)].priority == a.spec.priority && backends[NamespacedNamed(a)].customMetricInfos == {m}
    requires backends[NamespacedNamed(b)].priority == b.spec.priority && backends[NamespacedNamed(b)].customMetricInfos == {m}
    ensures IndexConsistent(map[m := [a, b]], backends, CustomOf)
  {
    DeleteFixtureLists(a, b);
  }

  lemma FixtureExternalConsistent(a: MetricsSource, b: MetricsSource, backends: map<NamespacedName, BackendState>, e: ExternalMetricInfo)
    requires TwoSources(a, b)
    requires backends.Keys == {NamespacedNamed(a), NamespacedNamed(b)}
    requires backends[NamespacedNamed(a)].priority == a.spec.priority && backends[NamespacedNamed(a)].externalMetricInfos == {e}
    requires backends[NamespacedNamed(b)].externalMetricInfos == {}
    ensures IndexConsistent(map[e := [a]], backends, ExternalOf)
  {
    DeleteFixtureLists(a, b);
  }

  /** DeleteService of `a` on the fixture: m is NotFound although the backend of `b` still serves
      it; e still lists `a`, whose backend state is gone, so its lookup fails with
      MissingProperties; and an update of `b` that no longer serves m would call RemoveSource on
      the missing list of m. */
  lemma DeleteServiceLosesMetric(a: MetricsSource, b: MetricsSource, ca: Client, cb: Client, m: CustomMetricInfo, e: ExternalMetricInfo)
    requires TwoSources(a, b)
    ensures var st := Delete(DeleteFixture(a, b, ca, cb, m, e), NamespacedNamed(a));
      NamespacedNamed(b) in st.backends && m in st.backends[NamespacedNamed(b)].customMetricInfos &&
      Resolve(st.customMetrics, st.backends, m) == Failure(NotFound) &&
      Resolve(st.externalMetrics, st.backends, e) == Failure(MissingProperties) &&
      !CanAddOrUpdate(st, NamespacedNamed(b), Success({}), Success({}))
  {
    var st0 := DeleteFixture(a, b, ca, cb, m, e);
    DeleteFixtureConsistent(a, b, ca, cb, m, e);
    DeleteDropsSharedMetrics(st0, NamespacedNamed(a), m, NamespacedNamed(b));
    var st := Delete(st0, NamespacedNamed(a));
    assert st.externalMetrics == map[e := [a]];
    assert NamespacedNamed(a) !in st.backends;
    assert PreviousCustom(st, NamespacedNamed(b)) == {m};
  }

  /** The index DeleteService evidently means to leave: the source removed from every list, and a
      list deleted when it is empty afterwards. */
  function PruneFromLists<K(!new)>(index: map<K, seq<MetricsSource>>, nn: NamespacedName): map<K, seq<MetricsSource>> {
    map k | k in index && AfterRemove(index[k], nn) != [] :: AfterRemove(index[k], nn)
  }

  /** DeleteService as evidently intended: both indexes are visited, and a key goes when its list is
      empty. */
  function DeleteCorrected(st: State, nn: NamespacedName): State {
    State(st.backends - {nn}, PruneFromLists(st.customMetrics, nn), PruneFromLists(st.externalMetrics, nn))
  }

  /** One list after the corrected deletion. */
  lemma PrunedAt<K(!new)>(index: map<K, seq<MetricsSource>>, nn: NamespacedName, k: K)
    requires k in index && SortedBy(index[k], Less) && KeysUnique(index[k])
    ensures var r := PruneFromLists(index, nn);
      var l := AfterRemove(index[k], nn);
      (k in r <==> l != []) && (k in r ==> r[k] == l) && SortedBy(l, Less) && KeysUnique(l) &&
      (forall x :: x in l <==> x in index[k] && NamespacedNamed(x) != nn) &&
      (forall m :: m != nn && HasKey(index[k], m) ==> HasKey(l, m))
  {
    var l := AfterRemove(index[k], nn);
    RemoveSourceSpec(index[k], nn);
    RemoveKeepsSorted(index[k], nn);
    forall m | m != nn && HasKey(index[k], m)
      ensures HasKey(l, m)
    {
      var x := MemberOfHasKey(index[k], m);
      HasKeyOfMember(l, x);
    }
  }

  lemma PruneConsistent<K(!new)>(index: map<K, seq<MetricsSource>>, backends: map<NamespacedName, BackendState>,
                                 serves: BackendState -> set<K>, nn: NamespacedName)
    requires IndexConsistent(index, backends, serves)
    ensures IndexConsistent(PruneFromLists(index, nn), backends - {nn}, serves)
    ensures forall k, x :: k in PruneFromLists(index, nn) && x in PruneFromLists(index, nn)[k] ==> NamespacedNamed(x) != nn
  {
    var r := PruneFromLists(index, nn);
    forall k | k in r
      ensures SortedBy(r[k], Less) && KeysUnique(r[k])
    {
      PrunedAt(index, nn, k);
    }
    forall k, x | k in r && x in r[k]
      ensures x in index[k] && NamespacedNamed(x) != nn
    {
      PrunedAt(index, nn, k);
    }
    forall m, k | m in backends - {nn} && k in serves(backends[m])
      ensures k in r && HasKey(r[k], m)
    {
      PrunedAt(index, nn, k);
      var x := MemberOfHasKey(AfterRemove(index[k], nn), m);
    }
  }

  /** The corrected deletion keeps a consistent registry consistent: no list names the deleted
      source any more, and every metric another backend serves still resolves to a backend. */
  lemma DeleteCorrectedKeepsConsistent(st: State, nn: NamespacedName)
    requires Consistent(st)
    ensures Consistent(DeleteCorrected(st, nn))
    ensures nn !in DeleteCorrected(st, nn).backends
    ensures forall k, x :: k in DeleteCorrected(st, nn).customMetrics && x in DeleteCorrected(st, nn).customMetrics[k] ==>
      NamespacedNamed(x) != nn
    ensures forall k, x :: k in DeleteCorrected(st, nn).externalMetrics && x in DeleteCorrected(st, nn).externalMetrics[k] ==>
      NamespacedNamed(x) != nn
  {
    PruneConsistent(st.customMetrics, st.backends, CustomOf, nn);
    PruneConsistent(st.externalMetrics, st.backends, ExternalOf, nn);
  }

  /** On the fixture the corrected deletion of `a` resolves m to the client of `b` and reports e as
      NotFound. */
  lemma DeleteCorrectedKeepsMetric(a: MetricsSource, b: MetricsSource, ca: Client, cb: Client, m: CustomMetricInfo, e: ExternalMetricInfo)
    requires TwoSources(a, b)
    ensures var st := DeleteCorrected(DeleteFixture(a, b, ca, cb, m, e), NamespacedNamed(a));
      Resolve(st.customMetrics, st.backends, m) == Success(cb) &&
      Resolve(st.externalMetrics, st.backends, e) == Failure(NotFound)
  {
    PruneFixtureCustom(a, b, m);
    PruneFixtureExternal(a, e);
    var st := DeleteCorrected(DeleteFixture(a, b, ca, cb, m, e), NamespacedNamed(a));
    assert st == State(map[NamespacedNamed(b) := BackendState(b.spec.priority, {m}, {}, cb)], map[m := [b]], map[]);
  }

  lemma PruneFixtureCustom(a: MetricsSource, b: MetricsSource, m: CustomMetricInfo)
    requires TwoSources(a, b)
    ensures PruneFromLists(map[m := [a, b]], NamespacedNamed(a)) == map[m := [b]]
  {
    RemoveFirstOfTwo(a, b);
  }

  /** Of the fixture's list, deleting `a` leaves `b` alone. */
  lemma RemoveFirstOfTwo(a: MetricsSource, b: MetricsSource)
    requires TwoSources(a, b)
    ensures AfterRemove([a, b], NamespacedNamed(a)) == [b]
  {
    DeleteFixtureLists(a, b);
    RemoveSourceSpec([a, b], NamespacedNamed(a));
    var l := AfterRemove([a, b], NamespacedNamed(a));
    assert b in l && |l| == 1;
  }

  lemma PruneFixtureExternal(a: MetricsSource, e: ExternalMetricInfo)
    ensures PruneFromLists(map[e := [a]], NamespacedNamed(a)) == map[]
  {
    HasKeyOfMember([a], a);
    RemoveSourceSpec([a], NamespacedNamed(a));
    assert AfterRemove([a], NamespacedNamed(a)) == [];
  }
}
