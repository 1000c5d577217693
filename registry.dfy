/** The registry of pkg/registry: a directory of metric sources by name, and one index per metric
    kind from each metric identifier to the ranked list of the sources that serve it. */
module Registry {
  import opened Common
  import opened Sorting
  import opened MetricsSourceTypes
  import opened MetricsClient
  import opened RegistryServices

  /** cachedMetricSource: what the directory keeps about one source. */
  datatype SourceRecord = SourceRecord(
    sourceName: string,
    priority: int,
    customMetricInfos: set<CustomMetricInfo>,
    externalMetricInfos: set<ExternalMetricInfo>,
    client: Client)

  /** The three maps of a Registry. */
  datatype State = State(
    sources: map<string, SourceRecord>,
    customMetrics: map<CustomMetricInfo, seq<Entry>>,
    externalMetrics: map<ExternalMetricInfo, seq<Entry>>)

  /** What a call of AddOrUpdateSource leaves and returns. */
  datatype Effect = Effect(state: State, count: int, err: Option<Error>)

  const Empty: State := State(map[], map[], map[])

  /** The index with `name` removed from the lists of the keys `ks`; a key whose list becomes empty
      is deleted. Every key of `ks` must be in the index: the Go code dereferences the list pointer
      without a check. */
  function RemoveFromIndex<K(!new)>(index: map<K, seq<Entry>>, ks: set<K>, name: string): map<K, seq<Entry>>
    requires ks <= index.Keys
  {
    map k | k in index && (k !in ks || AfterRemove(index[k], name) != []) ::
      if k in ks then AfterRemove(index[k], name) else index[k]
  }

  /** The index with `e` added to, or updated in, the list of every key of `ks`; a missing key
      starts from an empty list. */
  function UpsertIntoIndex<K(!new)>(index: map<K, seq<Entry>>, ks: set<K>, e: Entry): map<K, seq<Entry>>
  {
    map k | k in index.Keys + ks ::
      if k in ks then AfterAddOrUpdate(if k in index then index[k] else [], e) else index[k]
  }

  /** One index brought up to date for a source that served `previous` and now serves `current`:
      the source leaves the lists of what it no longer serves, then enters those of what it serves. */
  function Reindex<K(!new)>(index: map<K, seq<Entry>>, previous: set<K>, current: set<K>, e: Entry): map<K, seq<Entry>>
    requires previous - current <= index.Keys
  {
    UpsertIntoIndex(RemoveFromIndex(index, previous - current, e.sourceName), current, e)
  }

  function PreviousCustom(st: State, name: string): set<CustomMetricInfo> {
    if name in st.sources then st.sources[name].customMetricInfos else {}
  }

  function PreviousExternal(st: State, name: string): set<ExternalMetricInfo> {
    if name in st.sources then st.sources[name].externalMetricInfos else {}
  }

  /** What the client lists for a kind of metric: nothing when the source does not declare the kind,
      without asking the backend. */
  function CustomListing(source: MetricsSource, discovered: Result<seq<APIResource>>, parseGroupResource: string -> GroupResource)
    : Result<set<CustomMetricInfo>>
  {
    if !DeclaresCustomMetrics(source.spec.metricTypes) then Success({})
    else if discovered.Failure? then Failure(DiscoveryFailed)
    else Success(CustomInfosOf(discovered.value, parseGroupResource))
  }

  function ExternalListing(source: MetricsSource, discovered: Result<seq<APIResource>>): Result<set<ExternalMetricInfo>> {
    if !DeclaresExternalMetrics(source.spec.metricTypes) then Success({})
    else if discovered.Failure? then Failure(DiscoveryFailed)
    else Success(ExternalInfosOf(discovered.value))
  }

  /** AddOrUpdateSource must not remove a source from a list that does not exist: every metric the
      source no longer serves must still be a key of its index when the removal reaches it. In Go a missing list
      is a nil pointer and the removal panics; the model makes this a precondition of the update
      once the client is built, since a failure to build it returns before any list is touched. */
  function CanAddOrUpdate(st: State, name: string, custom: Result<set<CustomMetricInfo>>, external: Result<set<ExternalMetricInfo>>): (r: bool)
    ensures name !in st.sources ==> r
  {
    (custom.Success? ==> PreviousCustom(st, name) - custom.value <= st.customMetrics.Keys) &&
    (custom.Success? && external.Success? ==> PreviousExternal(st, name) - external.value <= st.externalMetrics.Keys)
  }

  /** Registry.AddOrUpdateSource, as written: a failure to build the client or to list the custom
      metrics changes nothing, but a failure to list the external metrics comes after the custom index
      has been updated, and that update stays. On success the directory holds the new record and the
      count is the number of metrics the source serves. */
  function AddOrUpdate(st: State, source: MetricsSource, newClient: Result<Client>,
                       custom: Result<set<CustomMetricInfo>>, external: Result<set<ExternalMetricInfo>>): (r: Effect)
    requires newClient.Success? ==> CanAddOrUpdate(st, source.name, custom, external)
    ensures r.err.None? <==> newClient.Success? && custom.Success? && external.Success?
    ensures r.err.Some? ==> r.state.sources == st.sources && r.count == 0
    ensures r.err.None? ==> source.name in r.state.sources && r.state.sources[source.name].client == newClient.value
  {
    if newClient.Failure? then Effect(st, 0, Some(newClient.error))
    else if custom.Failure? then Effect(st, 0, Some(DiscoveryFailed))
    else
      var e := Entry(source.name, source.spec.priority);
      var st1 := st.(customMetrics := Reindex(st.customMetrics, PreviousCustom(st, source.name), custom.value, e));
      if external.Failure? then Effect(st1, 0, Some(DiscoveryFailed))
      else
        var record := SourceRecord(source.name, source.spec.priority, custom.value, external.value, newClient.value);
        Effect(State(st.sources[source.name := record],
                     st1.customMetrics,
                     Reindex(st.externalMetrics, PreviousExternal(st, source.name), external.value, e)),
               |custom.value| + |external.value|, None)
  }

  /** Registry.DeleteSource: the source leaves every list of both indexes, emptied lists go, and the
      directory forgets it. */
  function Delete(st: State, name: string): (r: State)
    ensures name !in r.sources
    ensures r.customMetrics.Keys <= st.customMetrics.Keys && r.externalMetrics.Keys <= st.externalMetrics.Keys
  {
    State(st.sources - {name},
          RemoveFromIndex(st.customMetrics, st.customMetrics.Keys, name),
          RemoveFromIndex(st.externalMetrics, st.externalMetrics.Keys, name))
  }

  /** GetMetricsBackend and GetExternalMetricsBackend: the client of the first source of the metric's
      list, read from the directory. */
  function Resolve<K(!new)>(index: map<K, seq<Entry>>, sources: map<string, SourceRecord>, k: K): (r: Result<Client>)
    ensures r == Failure(NotFound) <==> k !in index
    ensures r.Success? ==> k in index && index[k] != [] && index[k][0].sourceName in sources &&
                           r.value == sources[index[k][0].sourceName].client
  {
    if k !in index then Failure(NotFound)
    else match GetBestMetricService(index[k])
      case Failure(_) => Failure(NoBackend)
      case Success(best) =>
        if best.sourceName in sources then Success(sources[best.sourceName].client) else Failure(MissingProperties)
  }

  lemma RemoveFromIndexNothing<K(!new)>(index: map<K, seq<Entry>>, name: string)
    ensures RemoveFromIndex(index, {}, name) == index
  {
  }

  /** One more key processed by a removal loop. */
  lemma RemoveStep<K(!new)>(index: map<K, seq<Entry>>, done: set<K>, k: K, name: string)
    requires done <= index.Keys && k in index && k !in done
    ensures k in RemoveFromIndex(index, done, name) && RemoveFromIndex(index, done, name)[k] == index[k]
    ensures var r := RemoveFromIndex(index, done, name);
            var l := AfterRemove(index[k], name);
            RemoveFromIndex(index, done + {k}, name) == if l == [] then r - {k} else r[k := l]
  {
    var r := RemoveFromIndex(index, done, name);
    var l := AfterRemove(index[k], name);
    var after := RemoveFromIndex(index, done + {k}, name);
    if l == [] {
      assert after.Keys == r.Keys - {k};
      MapRemoved(after, r, k);
    } else {
      assert after.Keys == r.Keys + {k};
      MapUpdated(after, r, k, l);
    }
  }

  /** A range over a set, one element further. */
  lemma PendingStep<K>(all: set<K>, pending: set<K>, done: set<K>, k: K)
    requires pending <= all && done == all - pending && k in pending
    ensures done + {k} == all - (pending - {k})
    ensures k !in done
  {
  }

  lemma UpsertNothing<K(!new)>(index: map<K, seq<Entry>>, e: Entry)
    ensures UpsertIntoIndex(index, {}, e) == index
  {
  }

  /** One more key processed by the insertion loop. */
  lemma UpsertStep<K(!new)>(index: map<K, seq<Entry>>, done: set<K>, k: K, e: Entry)
    requires k !in done
    ensures var r := UpsertIntoIndex(index, done, e);
            UpsertIntoIndex(index, done + {k}, e) == r[k := AfterAddOrUpdate(if k in r then r[k] else [], e)]
  {
    var r := UpsertIntoIndex(index, done, e);
    UpsertStepKeys(index, done, k, e);
    UpsertStepAt(index, done, k, e);
    UpsertStepElsewhere(index, done, k, e);
    MapUpdated(UpsertIntoIndex(index, done + {k}, e), r, k, AfterAddOrUpdate(if k in r then r[k] else [], e));
  }

  lemma UpsertStepKeys<K(!new)>(index: map<K, seq<Entry>>, done: set<K>, k: K, e: Entry)
    ensures UpsertIntoIndex(index, done + {k}, e).Keys == UpsertIntoIndex(index, done, e).Keys + {k}
  {
  }

  lemma UpsertStepAt<K(!new)>(index: map<K, seq<Entry>>, done: set<K>, k: K, e: Entry)
    requires k !in done
    ensures var r := UpsertIntoIndex(index, done, e);
            UpsertIntoIndex(index, done + {k}, e)[k] == AfterAddOrUpdate(if k in r then r[k] else [], e)
  {
  }

  lemma UpsertStepElsewhere<K(!new)>(index: map<K, seq<Entry>>, done: set<K>, k: K, e: Entry)
    ensures var r := UpsertIntoIndex(index, done, e);
            forall j :: j in r && j != k ==> UpsertIntoIndex(index, done + {k}, e)[j] == r[j]
  {
  }

  /** getRemovedCustomMetrics and getRemovedExternalMetrics: a range over the old set collecting what
      the new set lacks. */
  method GetRemovedMetrics<K(!new)>(previous: set<K>, current: set<K>) returns (outdated: seq<K>)
    ensures forall k :: k in outdated <==> k in previous && k !in current
    ensures Distinct(outdated)
  {
    outdated := [];
    var pending := previous;
    while pending != {}
      invariant pending <= previous
      invariant forall k :: k in outdated <==> k in previous - pending && k !in current
      invariant Distinct(outdated)
      decreases pending
    {
      var info :| info in pending;
      if info !in current {
        outdated := outdated + [info];
      }
      pending := pending - {info};
    }
  }

  /** The removal loop of AddOrUpdateSource: the source leaves the list of each outdated metric, and a
      list that becomes empty is deleted. */
  method RemoveOutdated<K(!new)>(index: map<K, seq<Entry>>, outdated: seq<K>, name: string) returns (r: map<K, seq<Entry>>)
    requires Distinct(outdated)
    requires forall k :: k in outdated ==> k in index
    ensures r == RemoveFromIndex(index, Elements(outdated), name)
  {
    r := index;
    ghost var done: set<K> := {};
    RemoveFromIndexNothing(index, name);
    for i := 0 to |outdated|
      invariant forall x :: x in done <==> x in outdated[..i]
      invariant r == RemoveFromIndex(index, done, name)
    {
      var k := outdated[i];
      assert k !in done;
      RemoveStep(index, done, k, name);
      var list, empty := RemoveSource(r[k], name);
      if empty {
        r := r - {k};
      } else {
        r := r[k := list];
      }
      done := done + {k};
      assert outdated[..i + 1] == outdated[..i] + [k];
    }
    assert outdated[..|outdated|] == outdated;
    assert done == Elements(outdated);
  }

  /** The removal loop of DeleteSource: a range over the whole index, deleting as it goes. */
  method RemoveEverywhere<K(!new)>(index: map<K, seq<Entry>>, name: string) returns (r: map<K, seq<Entry>>)
    ensures r == RemoveFromIndex(index, index.Keys, name)
  {
    r := index;
    var pending := index.Keys;
    ghost var done: set<K> := {};
    RemoveFromIndexNothing(index, name);
    while pending != {}
      invariant pending <= index.Keys && done == index.Keys - pending
      invariant r == RemoveFromIndex(index, done, name)
      decreases pending
    {
      var k :| k in pending;
      RemoveStep(index, done, k, name);
      PendingStep(index.Keys, pending, done, k);
      var list, empty := RemoveSource(r[k], name);
      if empty {
        r := r - {k};
      } else {
        r := r[k := list];
      }
      pending := pending - {k};
      done := done + {k};
    }
  }

  /** The insertion loop of AddOrUpdateSource: a range over the served metrics, creating a list where
      there is none and adding or updating the source in it. */
  method UpsertAll<K(!new)>(index: map<K, seq<Entry>>, ks: set<K>, e: Entry) returns (r: map<K, seq<Entry>>)
    ensures r == UpsertIntoIndex(index, ks, e)
  {
    r := index;
    var pending := ks;
    UpsertNothing(index, e);
    assert ks - pending == {};
    while pending != {}
      invariant pending <= ks
      invariant r == UpsertIntoIndex(index, ks - pending, e)
      decreases pending
    {
      var k :| k in pending;
      PendingStep(ks, pending, ks - pending, k);
      r := UpsertOne(index, ks - pending, r, k, e);
      pending := pending - {k};
    }
    assert ks - pending == ks;
  }

  /** One step of the insertion loop: the list of `k`, or a new one, with the source added or updated. */
  method UpsertOne<K(!new)>(index: map<K, seq<Entry>>, ghost done: set<K>, r: map<K, seq<Entry>>, k: K, e: Entry)
    returns (r': map<K, seq<Entry>>)
    requires k !in done && r == UpsertIntoIndex(index, done, e)
    ensures r' == UpsertIntoIndex(index, done + {k}, e)
  {
    UpsertStep(index, done, k, e);
    var current := if k in r then r[k] else [];
    var list := AddOrUpdateSource(current, e);
    r' := r[k := list];
  }

  /** One index brought up to date by AddOrUpdateSource: the outdated metrics are collected and the
      source leaves their lists, then it enters the lists of what it serves now. `previous` is empty
      for a source the directory does not know, and then nothing is removed. */
  method ReindexAll<K(!new)>(index: map<K, seq<Entry>>, previous: set<K>, current: set<K>, e: Entry)
    returns (r: map<K, seq<Entry>>)
    requires previous - current <= index.Keys
    ensures r == Reindex(index, previous, current, e)
  {
    var removed := GetRemovedMetrics(previous, current);
    assert Elements(removed) == previous - current;
    r := RemoveOutdated(index, removed, e.sourceName);
    r := UpsertAll(r, current, e);
  }

  /** ListAllCustomMetrics and ListAllExternalMetrics: a slice of the index's size, filled by a range
      over the index. */
  method ListKeys<K(0,!new), V>(index: map<K, V>) returns (infos: seq<K>)
    ensures |infos| == |index|
    ensures Distinct(infos)
    ensures forall k :: k in infos <==> k in index
  {
    var slots := new K[|index|];
    var count := 0;
    var pending := index.Keys;
    while pending != {}
      invariant pending <= index.Keys
      invariant count + |pending| == |index|
      invariant Distinct(slots[..count])
      invariant forall k :: k in slots[..count] <==> k in index && k !in pending
      decreases pending
    {
      var k :| k in pending;
      slots[count] := k;
      assert slots[..count + 1] == slots[..count] + [k];
      count := count + 1;
      pending := pending - {k};
    }
    infos := slots[..];
    assert slots[..count] == infos;
  }

  /** The custom part of AddOrUpdateSource's discovery: nothing when the source does not declare
      custom metrics, the client's listing otherwise. */
  method ListCustomFor(source: MetricsSource, discovered: Result<seq<APIResource>>, parseGroupResource: string -> GroupResource)
    returns (r: Result<set<CustomMetricInfo>>)
    ensures r == CustomListing(source, discovered, parseGroupResource)
  {
    var hasCustom := HasCustomMetrics(source.spec.metricTypes);
    if !hasCustom {
      return Success({});
    }
    r := ListCustomMetricInfos(discovered, parseGroupResource);
  }

  /** The external part of AddOrUpdateSource's discovery. */
  method ListExternalFor(source: MetricsSource, discovered: Result<seq<APIResource>>) returns (r: Result<set<ExternalMetricInfo>>)
    ensures r == ExternalListing(source, discovered)
  {
    var hasExternal := HasExternalMetrics(source.spec.metricTypes);
    if !hasExternal {
      return Success({});
    }
    r := ListExternalMetrics(discovered);
  }

  /** AddOrUpdate when the external listing fails after the custom one succeeded. */
  lemma PartialEffect(st: State, source: MetricsSource, c: Client, custom: set<CustomMetricInfo>,
                      external: Result<set<ExternalMetricInfo>>)
    requires external.Failure?
    requires CanAddOrUpdate(st, source.name, Success(custom), external)
    ensures AddOrUpdate(st, source, Success(c), Success(custom), external) ==
      Effect(st.(customMetrics := Reindex(st.customMetrics, PreviousCustom(st, source.name), custom,
                                          Entry(source.name, source.spec.priority))),
             0, Some(DiscoveryFailed))
  {
  }

  /** AddOrUpdate when everything succeeds. */
  lemma SuccessEffect(st: State, source: MetricsSource, c: Client, custom: set<CustomMetricInfo>,
                      external: set<ExternalMetricInfo>)
    requires CanAddOrUpdate(st, source.name, Success(custom), Success(external))
    ensures var e := Entry(source.name, source.spec.priority);
      AddOrUpdate(st, source, Success(c), Success(custom), Success(external)) ==
      Effect(State(st.sources[source.name := SourceRecord(source.name, source.spec.priority, custom, external, c)],
                   Reindex(st.customMetrics, PreviousCustom(st, source.name), custom, e),
                   Reindex(st.externalMetrics, PreviousExternal(st, source.name), external, e)),
             |custom| + |external|, None)
  {
  }

  /** The body of Registry.AddOrUpdateSource on the registry's three maps. */
  method UpdateMaps(st: State, source: MetricsSource, newClient: Result<Client>,
                    customDiscovery: Result<seq<APIResource>>, externalDiscovery: Result<seq<APIResource>>,
                    parseGroupResource: string -> GroupResource)
    returns (eff: Effect)
    requires newClient.Success? ==> CanAddOrUpdate(st, source.name, CustomListing(source, customDiscovery, parseGroupResource),
                            ExternalListing(source, externalDiscovery))
    ensures eff == AddOrUpdate(st, source, newClient, CustomListing(source, customDiscovery, parseGroupResource),
                               ExternalListing(source, externalDiscovery))
  {
    if newClient.Failure? {
      return Effect(st, 0, Some(newClient.error));
    }
    var client := newClient.value;
    var e := Entry(source.name, source.spec.priority);

    var custom := ListCustomFor(source, customDiscovery, parseGroupResource);
    if custom.Failure? {
      return Effect(st, 0, Some(DiscoveryFailed));
    }
    var previousCustom := {};
    if source.name in st.sources {
      previousCustom := st.sources[source.name].customMetricInfos;
    }
    var customMetrics := ReindexAll(st.customMetrics, previousCustom, custom.value, e);

    var external := ListExternalFor(source, externalDiscovery);
    if external.Failure? {
      PartialEffect(st, source, client, custom.value, external);
      return Effect(st.(customMetrics := customMetrics), 0, Some(DiscoveryFailed));
    }
    var previousExternal := {};
    if source.name in st.sources {
      previousExternal := st.sources[source.name].externalMetricInfos;
    }
    var externalMetrics := ReindexAll(st.externalMetrics, previousExternal, external.value, e);

    var record := SourceRecord(source.name, source.spec.priority, custom.value, external.value, client);
    SuccessEffect(st, source, client, custom.value, external.value);
    return Effect(State(st.sources[source.name := record], customMetrics, externalMetrics),
                  |custom.value| + |external.value|, None);
  }

  class Registry {
    /** The current state of every source, by name. */
    var cachedMetricsSourcesBySource: map<string, SourceRecord>
    var customMetrics: map<CustomMetricInfo, seq<Entry>>
    var externalMetrics: map<ExternalMetricInfo, seq<Entry>>

    ghost function Current(): State
      reads this
    {
      State(cachedMetricsSourcesBySource, customMetrics, externalMetrics)
    }

    /** NewRegistry: three empty maps. */
    constructor ()
      ensures Current() == Empty
    {
      cachedMetricsSourcesBySource := map[];
      customMetrics := map[];
      externalMetrics := map[];
    }

    /** Registry.AddOrUpdateSource. The client provider's answer and the two discovery answers are
        inputs; schema.ParseGroupResource is `parseGroupResource`. The three maps are rewritten by
        UpdateMaps, which follows the Go body step by step, and then stored back in one go: the
        lock that the Go method holds makes the intermediate states invisible. */
    method AddOrUpdateSource(source: MetricsSource, newClient: Result<Client>,
                             customDiscovery: Result<seq<APIResource>>, externalDiscovery: Result<seq<APIResource>>,
                             parseGroupResource: string -> GroupResource)
      returns (count: int, err: Option<Error>)
      requires newClient.Success? ==> CanAddOrUpdate(Current(), source.name, CustomListing(source, customDiscovery, parseGroupResource),
                              ExternalListing(source, externalDiscovery))
      modifies this
      ensures var eff := AddOrUpdate(old(Current()), source, newClient,
                                     CustomListing(source, customDiscovery, parseGroupResource),
                                     ExternalListing(source, externalDiscovery));
              Current() == eff.state && count == eff.count && err == eff.err
    {
      var eff := UpdateMaps(State(cachedMetricsSourcesBySource, customMetrics, externalMetrics),
                            source, newClient, customDiscovery, externalDiscovery, parseGroupResource);
      cachedMetricsSourcesBySource := eff.state.sources;
      customMetrics := eff.state.customMetrics;
      externalMetrics := eff.state.externalMetrics;
      return eff.count, eff.err;
    }

    /** Registry.DeleteSource. */
    method DeleteSource(sourceName: string)
      modifies this
      ensures Current() == Delete(old(Current()), sourceName)
    {
      customMetrics := RemoveEverywhere(customMetrics, sourceName);
      externalMetrics := RemoveEverywhere(externalMetrics, sourceName);
      cachedMetricsSourcesBySource := cachedMetricsSourcesBySource - {sourceName};
    }

    /** Registry.GetMetricsBackend. */
    method GetMetricsBackend(info: CustomMetricInfo) returns (r: Result<Client>)
      ensures r == Resolve(customMetrics, cachedMetricsSourcesBySource, info)
    {
      if info !in customMetrics {
        return Failure(NotFound);
      }
      var service := GetBestMetricService(customMetrics[info]);
      if service.Failure? {
        return Failure(NoBackend);
      }
      if service.value.sourceName !in cachedMetricsSourcesBySource {
        return Failure(MissingProperties);
      }
      return Success(cachedMetricsSourcesBySource[service.value.sourceName].client);
    }

    /** Registry.GetExternalMetricsBackend. */
    method GetExternalMetricsBackend(info: ExternalMetricInfo) returns (r: Result<Client>)
      ensures r == Resolve(externalMetrics, cachedMetricsSourcesBySource, info)
    {
      if info !in externalMetrics {
        return Failure(NotFound);
      }
      var service := GetBestMetricService(externalMetrics[info]);
      if service.Failure? {
        return Failure(NoBackend);
      }
      if service.value.sourceName !in cachedMetricsSourcesBySource {
        return Failure(MissingProperties);
      }
      return Success(cachedMetricsSourcesBySource[service.value.sourceName].client);
    }

    /** Registry.ListAllCustomMetrics: every custom metric some source serves, each once. */
    method ListAllCustomMetrics() returns (infos: seq<CustomMetricInfo>)
      ensures |infos| == |customMetrics| && Distinct(infos)
      ensures forall k :: k in infos <==> k in customMetrics
    {
      infos := ListKeys(customMetrics);
    }

    /** Registry.ListAllExternalMetrics. */
    method ListAllExternalMetrics() returns (infos: seq<ExternalMetricInfo>)
      ensures |infos| == |externalMetrics| && Distinct(infos)
      ensures forall k :: k in infos <==> k in externalMetrics
    {
      infos := ListKeys(externalMetrics);
    }
  }
}
