/** The metric identifiers of the custom and external metrics APIs, the client handle of one backend,
    and the two loops that turn a backend's discovery listing into sets of identifiers. */
module MetricsClient {
  import opened Common
  import opened GoStrings
  import opened MetricsSourceTypes

  /** schema.GroupResource. */
  datatype GroupResource = GroupResource(group: string, resource: string)

  /** provider.CustomMetricInfo: compared field by field. */
  datatype CustomMetricInfo = CustomMetricInfo(groupResource: GroupResource, namespaced: bool, metric: string)

  /** provider.ExternalMetricInfo. */
  datatype ExternalMetricInfo = ExternalMetricInfo(metric: string)

  /** One entry of a discovery listing (metav1.APIResource): only its name and scope are read. */
  datatype APIResource = APIResource(name: string, namespaced: bool)

  /** The client built for one backend. Its REST and discovery clients are not modelled: `connection`
      stands for them, so that two clients built for the same backend can still differ. */
  datatype Client = Client(backend: MetricsServiceBackend, connection: nat)

  /** The identifier that a well-formed custom resource name `group-resource/metric` stands for. */
  function CustomInfoOf(r: APIResource, parseGroupResource: string -> GroupResource): CustomMetricInfo
    requires |SplitN2(r.name, '/')| == 2
  {
    var parts := SplitN2(r.name, '/');
    CustomMetricInfo(parseGroupResource(parts[0]), r.namespaced, parts[1])
  }

  predicate WellFormedCustomName(name: string) {
    |SplitN2(name, '/')| == 2
  }

  /** A name that splits in two holds the separator. */
  lemma WellFormedHasSlash()
    ensures forall name :: WellFormedCustomName(name) ==> '/' in name
  {
    forall name | WellFormedCustomName(name)
      ensures '/' in name
    {
      SplitN2Whole(name, '/');
    }
  }

  /** Every custom identifier that the listing `resources` names. */
  function CustomInfosOf(resources: seq<APIResource>, parseGroupResource: string -> GroupResource): (r: set<CustomMetricInfo>)
    ensures forall x :: x in r ==> exists i :: 0 <= i < |resources| && '/' in resources[i].name && resources[i].namespaced == x.namespaced
  {
    WellFormedHasSlash();
    set i | 0 <= i < |resources| && WellFormedCustomName(resources[i].name) :: CustomInfoOf(resources[i], parseGroupResource)
  }

  /** Every external identifier that the listing `resources` names. */
  function ExternalInfosOf(resources: seq<APIResource>): (r: set<ExternalMetricInfo>)
    ensures forall x :: x in r ==> exists i :: 0 <= i < |resources| && resources[i].name == x.metric
    ensures resources == [] ==> r == {}
  {
    set i | 0 <= i < |resources| :: ExternalMetricInfo(resources[i].name)
  }

  /** Client.ListCustomMetricInfos, from the discovery result on. `discovered` is what
      ServerResourcesForGroupVersion answered; `parseGroupResource` is schema.ParseGroupResource,
      library code that the model leaves uninterpreted. */
  method ListCustomMetricInfos(discovered: Result<seq<APIResource>>, parseGroupResource: string -> GroupResource)
    returns (r: Result<set<CustomMetricInfo>>)
    ensures discovered.Failure? <==> r == Failure(DiscoveryFailed)
    ensures discovered.Success? ==> r == Success(CustomInfosOf(discovered.value, parseGroupResource))
  {
    if discovered.Failure? {
      return Failure(DiscoveryFailed);
    }
    var resources := discovered.value;
    var metricInfos: set<CustomMetricInfo> := {};
    for i := 0 to |resources|
      invariant metricInfos == CustomInfosOf(resources[..i], parseGroupResource)
    {
      var parts := SplitN2(resources[i].name, '/');
      if |parts| != 2 {
        // a malformed name is skipped, with a warning
        assert resources[..i + 1] == resources[..i] + [resources[i]];
        continue;
      }
      var info := CustomMetricInfo(parseGroupResource(parts[0]), resources[i].namespaced, parts[1]);
      metricInfos := metricInfos + {info};
      assert resources[..i + 1] == resources[..i] + [resources[i]];
    }
    assert resources[..|resources|] == resources;
    return Success(metricInfos);
  }

  /** Client.ListExternalMetrics, from the discovery result on: every name is taken verbatim. */
  method ListExternalMetrics(discovered: Result<seq<APIResource>>) returns (r: Result<set<ExternalMetricInfo>>)
    ensures discovered.Failure? <==> r == Failure(DiscoveryFailed)
    ensures discovered.Success? ==> r == Success(ExternalInfosOf(discovered.value))
  {
    var infos: set<ExternalMetricInfo> := {};
    if discovered.Failure? {
      return Failure(DiscoveryFailed);
    }
    var resources := discovered.value;
    for i := 0 to |resources|
      invariant infos == ExternalInfosOf(resources[..i])
    {
      infos := infos + {ExternalMetricInfo(resources[i].name)};
      assert resources[..i + 1] == resources[..i] + [resources[i]];
    }
    assert resources[..|resources|] == resources;
    return Success(infos);
  }

  /** What the custom listing yields, stated without SplitN: an identifier is listed exactly when some
      resource is named `prefix/metric` with no slash in `prefix`; the group-resource is parsed from
      `prefix`, the metric is everything after the first slash (it may be empty or hold more slashes),
      and the scope is copied from the resource. Names without a slash contribute nothing. */
  lemma CustomInfosOfMembers(resources: seq<APIResource>, parseGroupResource: string -> GroupResource, info: CustomMetricInfo)
    ensures info in CustomInfosOf(resources, parseGroupResource) <==>
      exists i, prefix: string, metric: string ::
        0 <= i < |resources| && resources[i].name == prefix + "/" + metric && '/' !in prefix &&
        info == CustomMetricInfo(parseGroupResource(prefix), resources[i].namespaced, metric)
  {
    if info in CustomInfosOf(resources, parseGroupResource) {
      var i :| 0 <= i < |resources| && WellFormedCustomName(resources[i].name) &&
               CustomInfoOf(resources[i], parseGroupResource) == info;
      var parts := SplitN2(resources[i].name, '/');
      SplitN2Parts(resources[i].name, '/');
      assert resources[i].name == parts[0] + "/" + parts[1];
    }
    if exists i, prefix: string, metric: string ::
        0 <= i < |resources| && resources[i].name == prefix + "/" + metric && '/' !in prefix &&
        info == CustomMetricInfo(parseGroupResource(prefix), resources[i].namespaced, metric) {
      var i, prefix: string, metric: string :|
        0 <= i < |resources| && resources[i].name == prefix + "/" + metric && '/' !in prefix &&
        info == CustomMetricInfo(parseGroupResource(prefix), resources[i].namespaced, metric);
      SplitN2Join(prefix, '/', metric);
      assert prefix + "/" + metric == prefix + ['/'] + metric;
      assert CustomInfoOf(resources[i], parseGroupResource) == info;
    }
  }

  /** Identical identifiers collapse: listing a resource twice changes nothing, and an empty listing
      gives the empty set. */
  lemma CustomInfosOfCollapses(resources: seq<APIResource>, parseGroupResource: string -> GroupResource, k: nat)
    requires k < |resources|
    ensures CustomInfosOf(resources + [resources[k]], parseGroupResource) == CustomInfosOf(resources, parseGroupResource)
    ensures CustomInfosOf([], parseGroupResource) == {}
  {
    var longer := resources + [resources[k]];
    forall x | x in CustomInfosOf(longer, parseGroupResource)
      ensures x in CustomInfosOf(resources, parseGroupResource)
    {
      var i :| 0 <= i < |longer| && WellFormedCustomName(longer[i].name) && CustomInfoOf(longer[i], parseGroupResource) == x;
      if i == |resources| {
        assert longer[i] == resources[k];
      } else {
        assert longer[i] == resources[i];
      }
    }
    forall x | x in CustomInfosOf(resources, parseGroupResource)
      ensures x in CustomInfosOf(longer, parseGroupResource)
    {
      var i :| 0 <= i < |resources| && WellFormedCustomName(resources[i].name) && CustomInfoOf(resources[i], parseGroupResource) == x;
      assert longer[i] == resources[i];
    }
  }

  /** Every external resource name is listed verbatim, and nothing else is. */
  lemma ExternalInfosOfMembers(resources: seq<APIResource>, info: ExternalMetricInfo)
    ensures info in ExternalInfosOf(resources) <==> exists i :: 0 <= i < |resources| && resources[i].name == info.metric
  {
    if exists i :: 0 <= i < |resources| && resources[i].name == info.metric {
      var i :| 0 <= i < |resources| && resources[i].name == info.metric;
      assert ExternalMetricInfo(resources[i].name) == info;
    }
  }
}
