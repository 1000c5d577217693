/** The registry of pkg/controllers/metricsource: the state of every metrics backend by namespaced
    name, and one index per metric kind from each metric identifier to the MetricsServices list of
    the sources that serve it. Unlike pkg/registry, an index key is never deleted by an update, so
    empty lists can stay, and the deletion of a service keeps exactly the lists it empties. */
module MetricsourceRegistry {
  import opened Common
  import opened Sorting
  import opened MetricsSourceTypes
  import opened MetricsClient
  import opened MetricsourceServices
  import PkgRegistry = Registry

  /** MetricsServiceBackendState. */
  datatype BackendState = BackendState(
    priority: int,
    customMetricInfos: set<CustomMetricInfo>,
    externalMetricInfos: set<ExternalMetricInfo>,
    client: Client)

  /** The three maps of a Registry. */
  datatype State = State(
    backends: map<NamespacedName, BackendState>,
    customMetrics: map<CustomMetricInfo, seq<MetricsSource>>,
    externalMetrics: map<ExternalMetricInfo, seq<MetricsSource>>)

  /** What a call of AddOrUpdateService leaves and returns. */
  datatype Effect = Effect(state: State, count: int, err: Option<Error>)

  const Empty: State := State(map[], map[], map[])

  /** The index with `nn` removed from the lists of the keys `ks`; no key is deleted. Every key of
      `ks` must be in the index: the Go code calls RemoveSource on the stored list pointer without a
      check, and a missing key gives a nil one. */
  function RemoveFromLists<K(!new)>(index: map<K, seq<MetricsSource>>, ks: set<K>, nn: NamespacedName): map<K, seq<MetricsSource>>
    requires ks <= index.Keys
  {
    map k | k in index :: if k in ks then AfterRemove(index[k], nn) else index[k]
  }

  /** The index with `s` added to, or updated in, the list of every key of `ks`; a missing key
      starts from an empty list. */
  function UpsertIntoLists<K(!new)>(index: map<K, seq<MetricsSource>>, ks: set<K>, s: MetricsSource): map<K, seq<MetricsSource>>
  {
    map k | k in index.Keys + ks ::
      if k in ks then AfterAddOrUpdate(if k in index then index[k] else [], s) else index[k]
  }

  /** One index brought up to date for a source that served `previous` and now serves `current`. */
  function Reindex<K(!new)>(index: map<K, seq<MetricsSource>>, previous: set<K>, current: set<K>, s: MetricsSource)
    : map<K, seq<MetricsSource>>
    requires previous - current <= index.Keys
  {
    UpsertIntoLists(RemoveFromLists(index, previous - current, NamespacedNamed(s)), current, s)
  }

  /** The lists DeleteService leaves of the keys `ks` it has visited: a key goes when RemoveSource
      reports a list that still holds a source, and stays, with its now empty list, otherwise. */
  function DeleteFromLists<K(!new)>(index: map<K, seq<MetricsSource>>, ks: set<K>, nn: NamespacedName): map<K, seq<MetricsSource>>
  {
    map k | k in index && (k !in ks || AfterRemove(index[k], nn) == []) :: if k in ks then [] else index[k]
  }

  function PreviousCustom(st: State, nn: NamespacedName): set<CustomMetricInfo> {
    if nn in st.backends then st.backends[nn].customMetricInfos else {}
  }

  function PreviousExternal(st: State, nn: NamespacedName): set<ExternalMetricInfo> {
    if nn in st.backends then st.backends[nn].externalMetricInfos else {}
  }

  /** AddOrUpdateService must not call RemoveSource on a missing list: every metric the source no
      longer serves must still be a key of its index. In Go a missing list
      is a nil pointer and the removal panics; the model makes this a precondition of the update
      once the client is built, since a failure to build it returns before any list is touched. */
  function CanAddOrUpdate(st: State, nn: NamespacedName, custom: Result<set<CustomMetricInfo>>, external: Result<set<ExternalMetricInfo>>): (r: bool)
    ensures nn !in st.backends ==> r
  {
    (custom.Success? ==> PreviousCustom(st, nn) - custom.value <= st.customMetrics.Keys) &&
    (custom.Success? && external.Success? ==> PreviousExternal(st, nn) - external.value <= st.externalMetrics.Keys)
  }

  /** Registry.AddOrUpdateService, as written: a failure to build the client or to list the custom
      metrics changes nothing; a failure to list the external metrics comes after the custom index
      has been updated, that update stays, and the count of custom metrics is returned with the
      error. On success the backend state holds the new sets and client and the count is the number
      of metrics the source serves. */
  function AddOrUpdate(st: State, source: MetricsSource, newClient: Result<Client>,
                       custom: Result<set<CustomMetricInfo>>, external: Result<set<ExternalMetricInfo>>): (r: Effect)
    requires newClient.Success? ==> CanAddOrUpdate(st, NamespacedNamed(source), custom, external)
    ensures r.err.None? <==> newClient.Success? && custom.Success? && external.Success?
    ensures r.err.Some? ==> r.state.backends == st.backends && r.state.externalMetrics == st.externalMetrics
    ensures r.err.None? ==> NamespacedNamed(source) in r.state.backends &&
                            r.state.backends[NamespacedNamed(source)].client == newClient.value
  {
    var nn := NamespacedNamed(source);
    if newClient.Failure? then Effect(st, 0, Some(newClient.error))
    else if custom.Failure? then Effect(st, 0, Some(DiscoveryFailed))
    else
      var st1 := st.(customMetrics := Reindex(st.customMetrics, PreviousCustom(st, nn), custom.value, source));
      if external.Failure? then Effect(st1, |custom.value|, Some(DiscoveryFailed))
      else
        var backend := BackendState(source.spec.priority, custom.value, external.value, newClient.value);
        Effect(State(st.backends[nn := backend],
                     st1.customMetrics,
                     Reindex(st.externalMetrics, PreviousExternal(st, nn), external.value, source)),
               |custom.value| + |external.value|, None)
  }

  /** Registry.DeleteService, as written: only the custom index is visited, a key is deleted when its
      list still holds a source after the removal and kept, empty, otherwise; the external index is
      left as it is, and the backend state is forgotten. */
  function Delete(st: State, nn: NamespacedName): (r: State)
    ensures nn !in r.backends
    ensures r.customMetrics.Keys <= st.customMetrics.Keys
    ensures r.externalMetrics == st.externalMetrics
  {
    State(st.backends - {nn}, DeleteFromLists(st.customMetrics, st.customMetrics.Keys, nn), st.externalMetrics)
  }

  /** GetMetricsBackend and GetExternalMetricsBackend: the client of the first source of the metric's
      list, read from the backend state of its namespaced name. */
  function Resolve<K(!new)>(index: map<K, seq<MetricsSource>>, backends: map<NamespacedName, BackendState>, k: K): (r: Result<Client>)
    ensures r == Failure(NotFound) <==> k !in index
    ensures r.Success? ==> k in index && index[k] != [] && NamespacedNamed(index[k][0]) in backends &&
                           r.value == backends[NamespacedNamed(index[k][0])].client
  {
    if k !in index then Failure(NotFound)
    else match GetBestMetricService(index[k])
      case Failure(_) => Failure(NoBackend)
      case Success(best) =>
        if NamespacedNamed(best) in backends then Success(backends[NamespacedNamed(best)].client) else Failure(MissingProperties)
  }

  lemma RemoveFromListsNothing<K(!new)>(index: map<K, seq<MetricsSource>>, nn: NamespacedName)
    ensures RemoveFromLists(index, {}, nn) == index
  {
  }

  /** One more key processed by the removal loop of AddOrUpdateService. */
  lemma RemoveStep<K(!new)>(index: map<K, seq<MetricsSource>>, done: set<K>, k: K, nn: NamespacedName)
    requires done <= index.Keys && k in index && k !in done
    ensures k in RemoveFromLists(index, done, nn) && RemoveFromLists(index, done, nn)[k] == index[k]
    ensures RemoveFromLists(index, done + {k}, nn) == RemoveFromLists(index, done, nn)[k := AfterRemove(index[k], nn)]
  {
    var r := RemoveFromLists(index, done, nn);
    var after := RemoveFromLists(index, done + {k}, nn);
    assert after.Keys == r.Keys + {k};
    MapUpdated(after, r, k, AfterRemove(index[k], nn));
  }

  lemma UpsertNothing<K(!new)>(index: map<K, seq<MetricsSource>>, s: MetricsSource)
    ensures UpsertIntoLists(index, {}, s) == index
  {
  }

  /** One more key processed by the insertion loop of AddOrUpdateService. */
  lemma UpsertStep<K(!new)>(index: map<K, seq<MetricsSource>>, done: set<K>, k: K, s: MetricsSource)
    requires k !in done
    ensures var r := UpsertIntoLists(index, done, s);
            UpsertIntoLists(index, done + {k}, s) == r[k := AfterAddOrUpdate(if k in r then r[k] else [], s)]
  {
    var r := UpsertIntoLists(index, done, s);
    UpsertStepKeys(index, done, k, s);
    UpsertStepAt(index, done, k, s);
    UpsertStepElsewhere(index, done, k, s);
    MapUpdated(UpsertIntoLists(index, done + {k}, s), r, k, AfterAddOrUpdate(if k in r then r[k] else [], s));
  }

  lemma UpsertStepKeys<K(!new)>(index: map<K, seq<MetricsSource>>, done: set<K>, k: K, s: MetricsSource)
    ensures UpsertIntoLists(index, done + {k}, s).Keys == UpsertIntoLists(index, done, s).Keys + {k}
  {
  }

  lemma UpsertStepAt<K(!new)>(index: map<K, seq<MetricsSource>>, done: set<K>, k: K, s: MetricsSource)
    requires k !in done
    ensures var r := UpsertIntoLists(index, done, s);
            UpsertIntoLists(index, done + {k}, s)[k] == AfterAddOrUpdate(if k in r then r[k] else [], s)
  {
  }

  lemma UpsertStepElsewhere<K(!new)>(index: map<K, seq<MetricsSource>>, done: set<K>, k: K, s: MetricsSource)
    ensures var r := UpsertIntoLists(index, done, s);
            forall j :: j in r && j != k ==> UpsertIntoLists(index, done + {k}, s)[j] == r[j]
  {
  }

  lemma DeleteNothing<K(!new)>(index: map<K, seq<MetricsSource>>, nn: NamespacedName)
    ensures DeleteFromLists(index, {}, nn) == index
  {
  }

  /** One more key processed by the loop of DeleteService. */
  lemma DeleteStep<K(!new)>(index: map<K, seq<MetricsSource>>, done: set<K>, k: K, nn: NamespacedName)
    requires k in index && k !in done
    ensures k in DeleteFromLists(index, done, nn) && DeleteFromLists(index, done, nn)[k] == index[k]
    ensures var r := DeleteFromLists(index, done, nn);
            DeleteFromLists(index, done + {k}, nn) == if AfterRemove(index[k], nn) != [] then r - {k} else r[k := []]
  {
    var r := DeleteFromLists(index, done, nn);
    var after := DeleteFromLists(index, done + {k}, nn);
    if AfterRemove(index[k], nn) != [] {
      assert after.Keys == r.Keys - {k};
      MapRemoved(after, r, k);
    } else {
      assert after.Keys == r.Keys + {k};
      MapUpdated(after, r, k, []);
    }
  }

  /** The removal loop of AddOrUpdateService: the source leaves the list of each outdated metric, and
      the list stays in the index even when it becomes empty. */
  method RemoveOutdated<K(!new)>(index: map<K, seq<MetricsSource>>, outdated: seq<K>, nn: NamespacedName)
    returns (r: map<K, seq<MetricsSource>>)
    requires Distinct(outdated)
    requires forall k :: k in outdated ==> k in index
    ensures r == RemoveFromLists(index, Elements(outdated), nn)
  {
    r := index;
    ghost var done: set<K> := {};
    RemoveFromListsNothing(index, nn);
    for i := 0 to |outdated|
      invariant forall x :: x in done <==> x in outdated[..i]
      invariant r == RemoveFromLists(index, done, nn)
    {
      var k := outdated[i];
      assert k !in done;
      RemoveStep(index, done, k, nn);
      var list, _ := RemoveSource(r[k], nn);
      r := r[k := list];
      done := done + {k};
      assert outdated[..i + 1] == outdated[..i] + [k];
    }
    assert outdated[..|outdated|] == outdated;
    assert done == Elements(outdated);
  }

  /** The insertion loop of AddOrUpdateService: a range over the served metrics, creating a list
      where there is none and adding or updating the source in it. */
  method UpsertAll<K(!new)>(index: map<K, seq<MetricsSource>>, ks: set<K>, s: MetricsSource) returns (r: map<K, seq<MetricsSource>>)
    ensures r == UpsertIntoLists(index, ks, s)
  {
    r := index;
    var pending := ks;
    UpsertNothing(index, s);
    assert ks - pending == {};
    while pending != {}
      invariant pending <= ks
      invariant r == UpsertIntoLists(index, ks - pending, s)
      decreases pending
    {
      var k :| k in pending;
      PkgRegistry.PendingStep(ks, pending, ks - pending, k);
      r := UpsertOne(index, ks - pending, r, k, s);
      pending := pending - {k};
    }
    assert ks - pending == ks;
  }

  /** One step of the insertion loop: the list of `k`, or a new one, with the source added or updated. */
  method UpsertOne<K(!new)>(index: map<K, seq<MetricsSource>>, ghost done: set<K>, r: map<K, seq<MetricsSource>>, k: K, s: MetricsSource)
    returns (r': map<K, seq<MetricsSource>>)
    requires k !in done && r == UpsertIntoLists(index, done, s)
    ensures r' == UpsertIntoLists(index, done + {k}, s)
  {
    UpsertStep(index, done, k, s);
    var current := if k in r then r[k] else [];
    var list := AddOrUpdateSource(current, s);
    r' := r[k := list];
  }

  /** One index brought up to date by AddOrUpdateService: getOld*MetricInfos collects the outdated
      metrics, the source leaves their lists, then it enters the lists of what it serves now. */
  method ReindexAll<K(!new)>(index: map<K, seq<MetricsSource>>, previous: set<K>, current: set<K>, s: MetricsSource)
    returns (r: map<K, seq<MetricsSource>>)
    requires previous - current <= index.Keys
    ensures r == Reindex(index, previous, current, s)
  {
    var outdated := PkgRegistry.GetRemovedMetrics(previous, current);
    assert Elements(outdated) == previous - current;
    r := RemoveOutdated(index, outdated, NamespacedNamed(s));
    r := UpsertAll(r, current, s);
  }

  /** The loop of DeleteService over the custom index, deleting as it goes. */
  method DeleteEverywhere<K(!new)>(index: map<K, seq<MetricsSource>>, nn: NamespacedName) returns (r: map<K, seq<MetricsSource>>)
    ensures r == DeleteFromLists(index, index.Keys, nn)
  {
    r := index;
    var pending := index.Keys;
    ghost var done: set<K> := {};
    DeleteNothing(index, nn);
    while pending != {}
      invariant pending <= index.Keys && done == index.Keys - pending
      invariant r == DeleteFromLists(index, done, nn)
      decreases pending
    {
      var k :| k in pending;
      DeleteStep(index, done, k, nn);
      PkgRegistry.PendingStep(index.Keys, pending, done, k);
      var list, nonEmpty := RemoveSource(r[k], nn);
      if nonEmpty {
        r := r - {k};
      } else {
        r := r[k := list];
      }
      pending := pending - {k};
      done := done + {k};
    }
  }

  /** AddOrUpdate when the external listing fails after the custom one succeeded. */
  lemma PartialEffect(st: State, source: MetricsSource, c: Client, custom: set<CustomMetricInfo>,
                      external: Result<set<ExternalMetricInfo>>)
    requires external.Failure?
    requires CanAddOrUpdate(st, NamespacedNamed(source), Success(custom), external)
    ensures AddOrUpdate(st, source, Success(c), Success(custom), external) ==
      Effect(st.(customMetrics := Reindex(st.customMetrics, PreviousCustom(st, NamespacedNamed(source)), custom, source)),
             |custom|, Some(DiscoveryFailed))
  {
  }

  /** AddOrUpdate when everything succeeds. */
  lemma SuccessEffect(st: State, source: MetricsSource, c: Client, custom: set<CustomMetricInfo>,
                      external: set<ExternalMetricInfo>)
    requires CanAddOrUpdate(st, NamespacedNamed(source), Success(custom), Success(external))
    ensures var nn := NamespacedNamed(source);
      AddOrUpdate(st, source, Success(c), Success(custom), Success(external)) ==
      Effect(State(st.backends[nn := BackendState(source.spec.priority, custom, external, c)],
                   Reindex(st.customMetrics, PreviousCustom(st, nn), custom, source),
                   Reindex(st.externalMetrics, PreviousExternal(st, nn), external, source)),
             |custom| + |external|, None)
  {
  }

  /** The body of Registry.AddOrUpdateService on the registry's three maps, with the metric count
      accumulated as the Go code does. */
  method UpdateMaps(st: State, source: MetricsSource, newClient: Result<Client>,
                    customDiscovery: Result<seq<APIResource>>, externalDiscovery: Result<seq<APIResource>>,
                    parseGroupResource: string -> GroupResource)
    returns (eff: Effect)
    requires newClient.Success? ==> CanAddOrUpdate(st, NamespacedNamed(source), PkgRegistry.CustomListing(source, customDiscovery, parseGroupResource),
                            PkgRegistry.ExternalListing(source, externalDiscovery))
    ensures eff == AddOrUpdate(st, source, newClient, PkgRegistry.CustomListing(source, customDiscovery, parseGroupResource),
                               PkgRegistry.ExternalListing(source, externalDiscovery))
  {
    var metricCount := 0;
    if newClient.Failure? {
      return Effect(st, metricCount, Some(newClient.error));
    }
    var client := newClient.value;
    var nn := NamespacedNamed(source);

    var custom := PkgRegistry.ListCustomFor(source, customDiscovery, parseGroupResource);
    if custom.Failure? {
      return Effect(st, metricCount, Some(DiscoveryFailed));
    }
    metricCount := metricCount + |custom.value|;
    var previousCustom := {};
    if nn in st.backends {
      previousCustom := st.backends[nn].customMetricInfos;
    }
    var customMetrics := ReindexAll(st.customMetrics, previousCustom, custom.value, source);

    var external := PkgRegistry.ListExternalFor(source, externalDiscovery);
    if external.Failure? {
      PartialEffect(st, source, client, custom.value, external);
      return Effect(st.(customMetrics := customMetrics), metricCount, Some(DiscoveryFailed));
    }
    metricCount := metricCount + |external.value|;
    var previousExternal := {};
    if nn in st.backends {
      previousExternal := st.backends[nn].externalMetricInfos;
    }
    var externalMetrics := ReindexAll(st.externalMetrics, previousExternal, external.value, source);

    var backend := BackendState(source.spec.priority, custom.value, external.value, client);
    SuccessEffect(st, source, client, custom.value, external.value);
    return Effect(State(st.backends[nn := backend], customMetrics, externalMetrics), metricCount, None);
  }

  class Registry {
    /** The current state of every metrics backend, by namespaced name. */
    var metricsServiceBackendState: map<NamespacedName, BackendState>
    var customMetrics: map<CustomMetricInfo, seq<MetricsSource>>
    var externalMetrics: map<ExternalMetricInfo, seq<MetricsSource>>

    ghost function Current(): State
      reads this
    {
      State(metricsServiceBackendState, customMetrics, externalMetrics)
    }

    /** A registry with three empty maps. */
    constructor ()
      ensures Current() == Empty
    {
      metricsServiceBackendState := map[];
      customMetrics := map[];
      externalMetrics := map[];
    }

    /** Registry.AddOrUpdateService. The client provider's answer and the two discovery answers are
        inputs; schema.ParseGroupResource is `parseGroupResource`. The Go method holds the write lock
        throughout, so the three maps are stored back once UpdateMaps has rewritten them. */
    method AddOrUpdateService(source: MetricsSource, newClient: Result<Client>,
                              customDiscovery: Result<seq<APIResource>>, externalDiscovery: Result<seq<APIResource>>,
                              parseGroupResource: string -> GroupResource)
      returns (count: int, err: Option<Error>)
      requires newClient.Success? ==> CanAddOrUpdate(Current(), NamespacedNamed(source), PkgRegistry.CustomListing(source, customDiscovery, parseGroupResource),
                              PkgRegistry.ExternalListing(source, externalDiscovery))
      modifies this
      ensures var eff := AddOrUpdate(old(Current()), source, newClient,
                                     PkgRegistry.CustomListing(source, customDiscovery, parseGroupResource),
                                     PkgRegistry.ExternalListing(source, externalDiscovery));
              Current() == eff.state && count == eff.count && err == eff.err
    {
      var eff := UpdateMaps(State(metricsServiceBackendState, customMetrics, externalMetrics),
                            source, newClient, customDiscovery, externalDiscovery, parseGroupResource);
      metricsServiceBackendState := eff.state.backends;
      customMetrics := eff.state.customMetrics;
      externalMetrics := eff.state.externalMetrics;
      return eff.count, eff.err;
    }

    /** Registry.DeleteService. */
    method DeleteService(nn: NamespacedName)
      modifies this
      ensures Current() == Delete(old(Current()), nn)
    {
      customMetrics := DeleteEverywhere(customMetrics, nn);
      metricsServiceBackendState := metricsServiceBackendState - {nn};
    }

    /** Registry.GetMetricsBackend. */
    method GetMetricsBackend(info: CustomMetricInfo) returns (r: Result<Client>)
      ensures r == Resolve(customMetrics, metricsServiceBackendState, info)
    {
      if info !in customMetrics {
        return Failure(NotFound);
      }
      var service := GetBestMetricService(customMetrics[info]);
      if service.Failure? {
        return Failure(NoBackend);
      }
      var nn := NamespacedNamed(service.value);
      if nn !in metricsServiceBackendState {
        return Failure(MissingProperties);
      }
      return Success(metricsServiceBackendState[nn].client);
    }

    /** Registry.GetExternalMetricsBackend. */
    method GetExternalMetricsBackend(info: ExternalMetricInfo) returns (r: Result<Client>)
      ensures r == Resolve(externalMetrics, metricsServiceBackendState, info)
    {
      if info !in externalMetrics {
        return Failure(NotFound);
      }
      var service := GetBestMetricService(externalMetrics[info]);
      if service.Failure? {
        return Failure(NoBackend);
      }
      var nn := NamespacedNamed(service.value);
      if nn !in metricsServiceBackendState {
        return Failure(MissingProperties);
      }
      return Success(metricsServiceBackendState[nn].client);
    }

    /** Registry.ListAllCustomMetrics: every key of the custom index, each once, empty lists included. */
    method ListAllCustomMetrics() returns (infos: seq<CustomMetricInfo>)
      ensures |infos| == |customMetrics| && Distinct(infos)
      ensures forall k :: k in infos <==> k in customMetrics
    {
      infos := PkgRegistry.ListKeys(customMetrics);
    }

    /** Registry.ListAllExternalMetrics. */
    method ListAllExternalMetrics() returns (infos: seq<ExternalMetricInfo>)
      ensures |infos| == |externalMetrics| && Distinct(infos)
      ensures forall k :: k in infos <==> k in externalMetrics
    {
      infos := PkgRegistry.ListKeys(externalMetrics);
    }
  }
}
