# metrics-router: the metric-source registry

metrics-router serves the Kubernetes custom and external metrics APIs. It routes each metric
request to one of several metrics backends declared by `MetricsSource` objects. The heart of the
router is the **registry**, which holds three things:

- a **directory**: for each source, its priority, the custom and external metrics it serves, and
  its client;
- two **metric indexes**, one for custom and one for external metrics: each maps a metric to a
  **ranked list** of the sources that serve it;
- a **resolver**: it takes the first source of a metric's list and returns that source's client,
  read from the directory.

This project models both versions of the registry in the repository:

- `pkg/registry`:
  - it is the version the reconciler uses;
  - lists are ranked by priority descending, then by name;
  - a list that becomes empty is removed from its index.
- `pkg/controllers/metricsource`:
  - it is the version the serving path uses;
  - lists are sorted by priority ascending, so the lowest priority wins;
  - the directory is keyed by namespace and name;
  - `RemoveSource` reports whether the list is non-empty;
  - `DeleteService` is modelled as written.

It also models the descriptor helpers of `MetricsSource` and the two discovery-listing loops of
the metrics client.

## Structure

- `common.dfy`, module `Common`: `Option`, `Result`, and the registry's error kinds
  (`NotFound`, `NoBackend`, `MissingProperties`, `DiscoveryFailed`, `ClientFailed`).
- `go_strings.dfy`, module `GoStrings`: Go's byte-wise string `<`, `strings.SplitN(s, sep, 2)`,
  `strconv.Itoa` with its round trip, and ASCII `strings.ToLower`.
- `sorting.dfy`, module `Sorting`: the insertion sort that stands for `sort.Sort`, and what every
  sorted permutation shares.
- `metricssource_types.dfy`, module `MetricsSourceTypes`: the `MetricsSource` descriptor, its port
  and scheme defaults, its URL, and its metric-kind tests.
- `metricsclient.dfy`, module `MetricsClient`: the discovery parse loops. The discovery answer is
  an input.
- The `pkg/registry` version:
  - `registry_services.dfy`, module `RegistryServices`: the list type `cachedMetricSources`;
  - `registry.dfy`, module `Registry`: the registry class, its loops, and the specification
    functions they are proved against;
  - `registry_proofs.dfy`, module `RegistryProofs`: the consistency invariant, lookups, and the
    partial-update finding;
  - `registry_scenarios.dfy`, module `RegistryScenarios`: every case of `registry_test.go`.
- The `pkg/controllers/metricsource` version:
  - `metricsource_services.dfy`, module `MetricsourceServices`: the list type `MetricsServices`;
  - `metricsource_registry.dfy`, module `MetricsourceRegistry`: the registry class, its loops, and
    its specification functions;
  - `metricsource_proofs.dfy`, module `MetricsourceProofs`: the invariant, lookups, and the
    `DeleteService` finding.

Each list operation is a method with the source's scan loop:
- it is proved equal to a specification function;
- lemmas then state what that function keeps, as a permutation and by membership.

Each registry class:
- holds the three maps as fields;
- every method that changes state `ensures Current() == F(old(Current()), ...)`, where `F` is a
  specification function on values;
- the loops that rewrite the maps are value-level methods, proved against the same functions.

The consistency invariant `Consistent` says that:
- every list is sorted and names each source once;
- in `pkg/registry` no list is empty;
- every source listed has a directory record that serves the metric at that priority;
- every metric a source serves lists that source.

## Model

| member | source | states |
|---|---|---|
| GoStrings.StringLessIrreflexive | pkg/registry/services.go:44 | no string is below itself under Go's `<` |
| GoStrings.StringLessTransitive | pkg/registry/services.go:44 | Go's string `<` is transitive |
| GoStrings.StringLessTotal | pkg/registry/services.go:44 | of two different strings one is below the other |
| GoStrings.StringLessAsymmetric | pkg/registry/services.go:44 | Go's string `<` never holds both ways |
| GoStrings.StringLess | pkg/registry/services.go:44 | Go's byte-wise `<`: a proper prefix is below the longer string, and a string is below only a non-empty one |
| GoStrings.SplitN2 | pkg/metricsclient/metricsclient.go:98 | `strings.SplitN(s, "/", 2)` gives one part or two |
| GoStrings.SplitN2Whole | pkg/metricsclient/metricsclient.go:98-102 | a single part exactly when the separator is absent, and then it is the whole input |
| GoStrings.SplitN2Parts | pkg/metricsclient/metricsclient.go:98 | the two parts joined by the separator give the input back; the first part holds no separator |
| GoStrings.SplitN2Join | pkg/metricsclient/metricsclient.go:98 | splitting `a/b` with no slash in `a` gives exactly `a` and `b` |
| GoStrings.Digits | pkg/api/v1alpha1/metricssource_types.go:50 | a decimal rendering is non-empty and made of digits only |
| GoStrings.Itoa | pkg/api/v1alpha1/metricssource_types.go:50 | `strconv.Itoa`: never empty, and starts with a minus sign exactly when the number is negative |
| GoStrings.ParseInt | pkg/api/v1alpha1/metricssource_types.go:50 | the reading that inverts `Itoa`: accepts only an optional leading minus followed by digits |
| GoStrings.DigitsRoundTrip | pkg/api/v1alpha1/metricssource_types.go:50 | the digits of a natural number read back as that number |
| GoStrings.ItoaRoundTrip | pkg/api/v1alpha1/metricssource_types.go:50 | parsing what `strconv.Itoa` renders gives the number back, negative numbers included |
| GoStrings.ParseNegative | pkg/api/v1alpha1/metricssource_types.go:50 | a minus sign followed by digits reads as the negated value |
| GoStrings.ParseDigits | pkg/api/v1alpha1/metricssource_types.go:50 | a string of digits reads as its value |
| GoStrings.ItoaHasNoColon | pkg/api/v1alpha1/metricssource_types.go:76 | a rendered port never holds a colon, so it is what follows the URL's last colon |
| GoStrings.ToLower | pkg/api/v1alpha1/metricssource_types.go:76 | lower-casing keeps the length and maps each character on its own |
| GoStrings.AfterLast | pkg/api/v1alpha1/metricssource_types.go:76 | the part after the last occurrence of a character holds no occurrence of it |
| GoStrings.AfterLastSuffix | pkg/api/v1alpha1/metricssource_types.go:76 | when the tail holds no `c`, the part after the last `c` is that tail |
| Sorting.Insert | pkg/registry/services.go:64 | inserting adds exactly the one element, by multiset |
| Sorting.SortBy | pkg/registry/services.go:64 | the sort returns a permutation of its input |
| Sorting.SortByMembers | pkg/registry/services.go:64 | the sort keeps exactly the elements of its input |
| Sorting.InsertSorted | pkg/registry/services.go:64 | inserting into a sorted list keeps it sorted, under a strict order |
| Sorting.SortBySorted | pkg/registry/services.go:64 | the sort's result is sorted, as `sort.Sort` promises |
| Sorting.DistinctCount | pkg/registry/services.go:64 | an element of a list without repeats occurs once |
| Sorting.RepeatedCount | pkg/registry/services.go:64 | a repeated element occurs at least twice by multiset |
| Sorting.DistinctPermutation | pkg/registry/services.go:64 | a permutation of a list without repeats has none |
| Sorting.SortedDistinctIsStrict | pkg/registry/services.go:64 | under a total order, a sorted list without repeats is strictly increasing |
| Sorting.StrictlySortedUnique | pkg/registry/services.go:64 | two strictly sorted lists with the same elements are equal, so the unstable `sort.Sort` has one possible result |
| Sorting.SortByStrict | pkg/registry/services.go:64 | sorting distinct elements under a total order gives the unique strictly sorted list of them |
| Sorting.InsertAtEnd | pkg/registry/services.go:64 | an element below nothing in the list is inserted at its end |
| Sorting.SortByOfSorted | pkg/registry/services.go:64 | sorting a sorted list leaves it unchanged, also under an order that is not total |
| Sorting.StrictlySortedIsSorted | pkg/registry/services.go:64 | under a strict order, a strictly increasing list is sorted |
| MetricsSourceTypes.Port | pkg/api/v1alpha1/metricssource_types.go:33-47 | the configured port number, or 443 when none is set |
| MetricsSourceTypes.PortString | pkg/api/v1alpha1/metricssource_types.go:49-51 | the port in decimal: it parses back to `Port()` |
| MetricsSourceTypes.BackendNamespacedName | pkg/api/v1alpha1/metricssource_types.go:61-66 | copies exactly the backend's namespace and name |
| MetricsSourceTypes.Scheme | pkg/api/v1alpha1/metricssource_types.go:68-73 | HTTPS when no scheme is given, otherwise the scheme unchanged |
| MetricsSourceTypes.URL | pkg/api/v1alpha1/metricssource_types.go:75-77 | the URL starts with the lower-cased scheme and `://`, and what follows its last colon is the port in decimal |
| MetricsSourceTypes.URLPortRoundTrip | pkg/api/v1alpha1/metricssource_types.go:75-77 | the URL's text after its last colon parses back to the port |
| MetricsSourceTypes.LowerHTTPS | pkg/api/v1alpha1/metricssource_types.go:76 | the default scheme lower-cases to `https` |
| MetricsSourceTypes.Itoa443 | pkg/api/v1alpha1/metricssource_types.go:33 | the default port renders as `443` |
| MetricsSourceTypes.URLDefaults | pkg/api/v1alpha1/metricssource_types.go:68-77 | a backend naming only a service gets the URL `https://name.namespace.svc:443` |
| MetricsSourceTypes.Contains | pkg/api/v1alpha1/metricssource_types.go:81-88 | the search loop returns true exactly when the kind occurs in the list |
| MetricsSourceTypes.HasCustomMetrics | pkg/api/v1alpha1/metricssource_types.go:90-92 | the search loop run for `CustomMetrics`: true exactly when the source declares that kind |
| MetricsSourceTypes.HasExternalMetrics | pkg/api/v1alpha1/metricssource_types.go:94-96 | the search loop run for `ExternalMetrics`: true exactly when the source declares that kind |
| MetricsSourceTypes.NamespacedNamed | pkg/api/v1alpha1/metricssource_types.go:140-145 | copies exactly the source's namespace and name |
| MetricsClient.ListCustomMetricInfos | pkg/metricsclient/metricsclient.go:90-110 | a discovery error gives the error; otherwise the loop's set is the set of identifiers the listing names |
| MetricsClient.ListExternalMetrics | pkg/metricsclient/metricsclient.go:200-213 | a discovery error gives the error; otherwise the loop's set is the set of listed names |
| MetricsClient.CustomInfosOf | pkg/metricsclient/metricsclient.go:96-108 | every identifier the loop collects comes from a listed resource whose name holds a slash, with that resource's `Namespaced` flag |
| MetricsClient.WellFormedHasSlash | pkg/metricsclient/metricsclient.go:98-102 | a name that splits into two parts holds a slash |
| MetricsClient.ExternalInfosOf | pkg/metricsclient/metricsclient.go:205-212 | every identifier the loop collects is the name of a listed resource; an empty listing gives nothing |
| MetricsClient.CustomInfosOfMembers | pkg/metricsclient/metricsclient.go:97-108 | an identifier is listed iff a resource is named `prefix/metric` with no slash in `prefix`; the group-resource comes from `prefix`, the metric is the rest (empty or with slashes allowed), and `Namespaced` is copied; names without a slash are skipped |
| MetricsClient.CustomInfosOfCollapses | pkg/metricsclient/metricsclient.go:96-107 | a repeated resource changes nothing, and an empty listing gives the empty set |
| MetricsClient.ExternalInfosOfMembers | pkg/metricsclient/metricsclient.go:206-211 | every external resource name is listed verbatim, and nothing else |
| RegistryServices.LessIsStrictTotalOrder | pkg/registry/services.go:35-45 | `Less` holds iff higher priority, or equal priority and a smaller name; it is a strict total order |
| RegistryServices.Less | pkg/registry/services.go:35-45 | a higher priority always comes first, and an entry comes first only if its priority is not lower |
| RegistryServices.Sort | pkg/registry/services.go:64 | `sort.Sort`: a sorted permutation with exactly the input's entries |
| RegistryServices.ReplaceOrAppend | pkg/registry/services.go:52-63 | the result holds the new entry, every entry of another name, and nothing but old entries and the new one; it has the old length or one more |
| RegistryServices.RemoveLast | pkg/registry/services.go:68-75 | the result holds only old entries and every entry of another name; it has the old length or one less |
| RegistryServices.AfterAddOrUpdate | pkg/registry/services.go:51-65 | the list `addOrUpdateSource` leaves is sorted, holds the new entry and every entry of another name, and nothing else but old entries |
| RegistryServices.AfterRemove | pkg/registry/services.go:67-79 | the list `removeSource` leaves holds only old entries, and every entry of another name |
| RegistryServices.ReplaceAt | pkg/registry/services.go:52-60 | with the first match of the name at `i`, the entry is replaced in place |
| RegistryServices.AppendWhenAbsent | pkg/registry/services.go:59-63 | an entry whose name is absent is appended |
| RegistryServices.RemoveAt | pkg/registry/services.go:68-75 | with the last match of the name at `i`, exactly that entry is spliced out |
| RegistryServices.AddOrUpdateSource | pkg/registry/services.go:51-65 | the scan, replace or append, and sort produce the specified list `AfterAddOrUpdate` |
| RegistryServices.RemoveSource | pkg/registry/services.go:67-79 | the scan, splice and sort produce `AfterRemove`; `empty` is true iff the result is empty |
| RegistryServices.GetBestMetricService | pkg/registry/services.go:81-87 | an error iff the list is empty, otherwise its first entry |
| RegistryServices.BestIsHighestPriority | pkg/registry/services.go:81-87 | on a ranked list the first entry has the highest priority and the smallest name among that priority |
| RegistryServices.NamesUniqueDistinct | pkg/registry/services.go:51-65 | a list with unique names has no repeated entry |
| RegistryServices.SortRanks | pkg/registry/services.go:64 | sorting a list with unique names ranks it and keeps the same entries and length |
| RegistryServices.ReplaceOrAppendMembers | pkg/registry/services.go:51-63 | replace-or-append keeps names unique and holds the new entry plus the entries of other names; it is one longer iff the name was absent |
| RegistryServices.ReplacedUnique | pkg/registry/services.go:59-60 | replacing the entry of the same name keeps names unique |
| RegistryServices.ReplacedMember | pkg/registry/services.go:59-60 | after replacement the members are the new entry and the old entries of other names |
| RegistryServices.RemoveLastMembers | pkg/registry/services.go:67-75 | removing the named entry keeps every other entry, drops the named one, and shortens the list by one when present |
| RegistryServices.AddOrUpdateSourceSpec | pkg/registry/services.go:51-65 | the result is ranked, holds the new entry and every entry of another name and nothing else, and is one longer iff the name was absent |
| RegistryServices.AddOrUpdateListed | pkg/registry/services.go:51-65 | adding an entry a ranked list already holds gives back the same list |
| RegistryServices.RemoveSourceSpec | pkg/registry/services.go:67-79 | every entry of another name stays and the named one goes; a present name gives a ranked list one shorter, an absent one leaves the list unchanged |
| Registry.RemoveStep | pkg/registry/registry.go:96-100 | one outdated metric processed: its list loses the source and is deleted when empty |
| Registry.UpsertStep | pkg/registry/registry.go:103-110 | one served metric processed: the source is added to or updated in its list, which is created when missing |
| Registry.GetRemovedMetrics | pkg/registry/registry.go:140-158 | collects, without repeats, exactly the old metrics that the new set lacks |
| Registry.RemoveOutdated | pkg/registry/registry.go:93-101 | the removal loop yields the index with the source removed from each outdated list and emptied lists pruned |
| Registry.RemoveEverywhere | pkg/registry/registry.go:165-175 | the deletion loop over a whole index yields the specified pruned index |
| Registry.UpsertAll | pkg/registry/registry.go:103-110 | the insertion loop yields the index with the source in every served metric's list |
| Registry.UpsertOne | pkg/registry/registry.go:104-109 | one iteration of the insertion loop: the metric's list, created when missing, with the source added or updated |
| Registry.ReindexAll | pkg/registry/registry.go:93-133 | outdated removal then insertion produce the specified reindexed index |
| Registry.ListKeys | pkg/registry/registry.go:230-252 | the filled slice has the index's size, no repeats and exactly the index's keys |
| Registry.ListCustomFor | pkg/registry/registry.go:86-92 | nothing when the source does not declare custom metrics, otherwise the client's listing |
| Registry.ListExternalFor | pkg/registry/registry.go:112-117 | nothing when the source does not declare external metrics, otherwise the client's listing |
| Registry.CanAddOrUpdate | pkg/registry/registry.go:93-101 | what the update needs so that no removal reaches a missing list; it always holds for a source the directory does not know |
| Registry.AddOrUpdate | pkg/registry/registry.go:66-138 | success exactly when the client and both listings succeed; on failure the directory is unchanged and the count is 0; on success the directory holds the source with its new client |
| Registry.Delete | pkg/registry/registry.go:160-177 | the directory forgets the source, and neither index gains a key |
| Registry.Resolve | pkg/registry/registry.go:179-203 | NotFound exactly for a metric without a list; a client only from the directory record of the head of a non-empty list |
| Registry.PartialEffect | pkg/registry/registry.go:93-116 | when external discovery fails: the custom index is reindexed, the directory and external index are unchanged, and the result is `(0, error)` |
| Registry.SuccessEffect | pkg/registry/registry.go:78-137 | on success: the new record is in the directory, both indexes are reindexed, and the count is the number of served metrics |
| Registry.UpdateMaps | pkg/registry/registry.go:66-138 | the step-by-step body computes the specified effect on the three maps, error paths included |
| Registry.Registry.constructor | pkg/registry/registry.go:41-51 | a new registry is empty |
| Registry.Registry.AddOrUpdateSource | pkg/registry/registry.go:66-138 | the new state, count and error are those of the specification `AddOrUpdate` on the old state |
| Registry.Registry.DeleteSource | pkg/registry/registry.go:160-177 | the new state is the specification `Delete` of the old one |
| Registry.Registry.GetMetricsBackend | pkg/registry/registry.go:179-203 | NotFound for an unknown metric, NoBackend for an empty list, MissingProperties on a directory miss, otherwise the first source's client |
| Registry.Registry.GetExternalMetricsBackend | pkg/registry/registry.go:204-228 | the same resolution over the external index |
| Registry.Registry.ListAllCustomMetrics | pkg/registry/registry.go:230-240 | every key of the custom index, each once, and nothing else |
| Registry.Registry.ListAllExternalMetrics | pkg/registry/registry.go:242-252 | every key of the external index, each once, and nothing else |
| RegistryProofs.EmptyConsistent | pkg/registry/registry.go:41-51 | the empty registry is consistent |
| RegistryProofs.EntryOfName | pkg/registry/services.go:51-65 | in a consistent list an entry's name determines the entry |
| RegistryProofs.PreviousIndexed | pkg/registry/registry.go:93-101 | on a consistent registry every metric a known source served has a list, so the removal never meets a nil list |
| RegistryProofs.RemovePhase | pkg/registry/registry.go:93-101 | the removal phase keeps ranked non-empty lists, drops the source where it no longer serves, and keeps every other server |
| RegistryProofs.UpsertTouched | pkg/registry/registry.go:103-110 | a touched list is ranked and holds the new entry and the other sources it held |
| RegistryProofs.UpsertPhase | pkg/registry/registry.go:103-110 | after the removal phase, insertion makes the index consistent with the directory holding the new record |
| RegistryProofs.UpsertEntries | pkg/registry/registry.go:103-110 | every listed entry serves its metric at its directory priority after insertion |
| RegistryProofs.UpsertedEntryServes | pkg/registry/registry.go:103-110 | each entry after insertion is the new one or another source's old one, and it serves the key |
| RegistryProofs.UpsertedEntry | pkg/registry/registry.go:103-110 | where an entry after insertion comes from |
| RegistryProofs.UpsertServed | pkg/registry/registry.go:103-110 | every metric a source serves lists the source after insertion |
| RegistryProofs.UpsertLists | pkg/registry/registry.go:103-110 | every list after insertion is non-empty and ranked |
| RegistryProofs.ReindexConsistent | pkg/registry/registry.go:93-133 | reindexing a consistent index for a new record is defined and gives an index consistent with the updated directory |
| RegistryProofs.AddOrUpdateKeepsConsistent | pkg/registry/registry.go:66-138 | on a consistent registry: no nil-list removal; success iff client and both listings succeed; on success the registry stays consistent, holds the new record, and counts what the source serves |
| RegistryProofs.SuccessfulUpdateConsistent | pkg/registry/registry.go:78-137 | a successful update keeps the registry consistent |
| RegistryProofs.ReindexListed | pkg/registry/registry.go:93-133 | reindexing a consistent index for a known source that serves what it served, at the same priority, changes nothing |
| RegistryProofs.UpsertListed | pkg/registry/registry.go:103-110 | the insertion loop over ranked lists that already hold the entry changes no list |
| RegistryProofs.AddOrUpdateIdempotent | pkg/registry/registry.go:66-138 | re-adding a known source with the same priority and the same listings succeeds and leaves both indexes as they were; only the client changes |
| RegistryProofs.RemovedList | pkg/registry/registry.go:165-175 | after deletion a list is the ranked old list without the source, kept exactly when non-empty |
| RegistryProofs.RemoveEverywhereRanked | pkg/registry/registry.go:165-175 | deletion leaves non-empty ranked lists |
| RegistryProofs.RemoveEverywhereEntries | pkg/registry/registry.go:165-176 | after deletion no list names the source, and every entry serves its key |
| RegistryProofs.RemoveEverywhereServed | pkg/registry/registry.go:165-176 | after deletion every remaining source's metric still lists it |
| RegistryProofs.RemoveEverywhereConsistent | pkg/registry/registry.go:165-176 | deletion keeps an index consistent with the directory that forgot the source |
| RegistryProofs.DeleteKeepsConsistent | pkg/registry/registry.go:160-177 | `DeleteSource` keeps the registry consistent; the source is gone from the directory and from every list of both indexes |
| RegistryProofs.RemoveEverywhereUntouched | pkg/registry/registry.go:165-175 | a list that does not name the source survives the deletion loop unchanged |
| RegistryProofs.DeleteKeepsOtherLists | pkg/registry/registry.go:160-177 | `DeleteSource` on a consistent registry leaves every list that does not name the source unchanged, in both indexes |
| RegistryProofs.ResolveOnConsistent | pkg/registry/registry.go:179-203 | on a consistent index: NotFound iff no source serves the metric, no other error, otherwise the client of the highest-priority server with the smallest name on ties |
| RegistryProofs.GetMetricsBackendOnConsistent | pkg/registry/registry.go:179-203 | the same for the custom lookup of a consistent registry |
| RegistryProofs.GetExternalMetricsBackendOnConsistent | pkg/registry/registry.go:204-228 | the same for the external lookup |
| RegistryProofs.AddOrUpdateAtomic | pkg/registry/registry.go:66-138 | the corrected update: every failure leaves the registry unchanged and counts 0; success is the written update |
| RegistryProofs.AtomicKeepsConsistent | pkg/registry/registry.go:66-138 | the corrected update keeps a consistent registry consistent on every path |
| RegistryProofs.PartialUpdateBreaksRetry | pkg/registry/registry.go:93-116 | as written, a failed external listing reports an error yet leaves a registry that is inconsistent, loses a served metric, and crashes the retry |
| RegistryProofs.PartialFixtureConsistent | pkg/registry/registry.go:93-116 | the counterexample's pre-state is consistent |
| RegistryProofs.PartialUpdateEffect | pkg/registry/registry.go:93-116 | the failed call keeps the directory and empties the custom index |
| RegistryProofs.PartialUpdateInconsistent | pkg/registry/registry.go:93-101 | the half-done state is inconsistent, the metric is NotFound, and a retry would remove from a missing list |
| RegistryScenarios.FirstOf | pkg/registry/services.go:81-87 | the element `Less` than all others heads a ranked list |
| RegistryScenarios.WinnerAfterUpdate | pkg/registry/services.go:51-65 | the head of the list after an update, from the old members and the new entry |
| RegistryScenarios.RemoveLeavingOne | pkg/registry/services.go:67-79 | removing one of two entries leaves the other |
| RegistryScenarios.RemoveLeavingNone | pkg/registry/services.go:67-79 | removing the only entry empties the list |
| RegistryScenarios.ReindexResolves | pkg/registry/registry.go:103-110 | a metric the source still serves resolves to the winner of the old members and the new entry |
| RegistryScenarios.ReindexDroppedGone | pkg/registry/registry.go:93-101 | a metric the source drops and nobody else serves is NotFound |
| RegistryScenarios.ReindexDroppedKept | pkg/registry/registry.go:93-101 | a metric the source drops but others serve goes to the first of the others |
| RegistryScenarios.ReindexFreshKeys | pkg/registry/registry.go:103-110 | adding an unknown source adds exactly its metrics as keys |
| RegistryScenarios.ReindexDropKeys | pkg/registry/registry.go:93-110 | after an update dropping two metrics, the one only the source served goes and the one others serve stays, and the served metrics are added |
| RegistryScenarios.RemovedGone | pkg/registry/registry.go:165-175 | after deletion a metric only the source served is NotFound |
| RegistryScenarios.RemovedKept | pkg/registry/registry.go:165-175 | after deletion a shared metric goes to the first remaining source |
| RegistryScenarios.RemovedKeys | pkg/registry/registry.go:165-175 | the keys left when deletion empties one list |
| RegistryScenarios.RemovedFixtureKeys | pkg/registry/registry_test.go:248-249 | deleting the fixture's source listed everywhere leaves exactly the two keys the other source serves |
| RegistryScenarios.RemovedAll | pkg/registry/registry.go:165-175 | deleting the sole source empties the index |
| RegistryScenarios.UpdatedCount | pkg/registry/registry.go:136-137 | a successful update succeeds and counts the served metrics |
| RegistryScenarios.UpdatedSources | pkg/registry/registry.go:136 | a successful update records the source with its new client |
| RegistryScenarios.CanAddNew | pkg/registry/registry.go:93 | an unknown source has no previous metrics and can always be added |
| RegistryScenarios.UpdatedCustomIndex | pkg/registry/registry.go:93-110 | a successful update reindexes the custom metrics |
| RegistryScenarios.UpdatedCustomLookup | pkg/registry/registry.go:179-203 | the lookup of a custom metric the updated source serves |
| RegistryScenarios.DroppedCustomGone | pkg/registry/registry.go:93-101 | a dropped custom metric nobody else serves is NotFound |
| RegistryScenarios.DroppedCustomKept | pkg/registry/registry.go:93-101 | a dropped custom metric goes to the first other source |
| RegistryScenarios.DeletedCustomGone | pkg/registry/registry.go:165-169 | after deletion a custom metric only the source served is NotFound |
| RegistryScenarios.DeletedCustomKept | pkg/registry/registry.go:165-169 | after deletion a shared custom metric goes to the first other source |
| RegistryScenarios.UpdatedExternalIndex | pkg/registry/registry.go:118-133 | a successful update reindexes the external metrics |
| RegistryScenarios.UpdatedExternalLookup | pkg/registry/registry.go:204-228 | the lookup of an external metric the updated source serves |
| RegistryScenarios.DroppedExternalGone | pkg/registry/registry.go:118-125 | a dropped external metric nobody else serves is NotFound |
| RegistryScenarios.DroppedExternalKept | pkg/registry/registry.go:118-125 | a dropped external metric goes to the first other source |
| RegistryScenarios.DeletedExternalGone | pkg/registry/registry.go:171-175 | after deletion an external metric only the source served is NotFound |
| RegistryScenarios.DeletedExternalKept | pkg/registry/registry.go:171-175 | after deletion a shared external metric goes to the first other source |
| RegistryScenarios.AddSourceServingCustomMetrics | pkg/registry/registry_test.go:47-64 | adding newSource succeeds and counts 3 |
| RegistryScenarios.AddSourceListsCustomMetrics | pkg/registry/registry_test.go:65 | exactly metric1, metric2 and metric3 are listed |
| RegistryScenarios.AddSourceListsCustomMetricsOnly | pkg/registry/registry_test.go:217 | no external metric is listed |
| RegistryScenarios.AddSourceCustomMetric1 | pkg/registry/registry_test.go:67-71 | metric1 resolves to source1 |
| RegistryScenarios.AddSourceCustomMetric2 | pkg/registry/registry_test.go:72-76 | metric2 resolves to source2 |
| RegistryScenarios.AddSourceCustomMetric3 | pkg/registry/registry_test.go:77-81 | metric3 resolves to newSource, through its new client |
| RegistryScenarios.AddSourceServingExternalMetrics | pkg/registry/registry_test.go:84-101 | adding newSource succeeds and counts 3 |
| RegistryScenarios.AddSourceListsExternalMetrics | pkg/registry/registry_test.go:102 | exactly the three external metrics are listed |
| RegistryScenarios.AddSourceListsExternalMetricsOnly | pkg/registry/registry_test.go:216 | no custom metric is listed |
| RegistryScenarios.AddSourceExternalMetric1 | pkg/registry/registry_test.go:104-108 | metric1 resolves to source1 |
| RegistryScenarios.AddSourceExternalMetric2 | pkg/registry/registry_test.go:109-113 | metric2 resolves to source2 |
| RegistryScenarios.AddSourceExternalMetric3 | pkg/registry/registry_test.go:114-118 | metric3 resolves to newSource |
| RegistryScenarios.UpdateSourceServingCustomMetrics | pkg/registry/registry_test.go:121-138 | the update of source1 succeeds and counts 2 |
| RegistryScenarios.UpdateSourceListsCustomMetrics | pkg/registry/registry_test.go:139 | metric1, metric2 and metric3 are listed; metric4 is gone |
| RegistryScenarios.UpdateSourceCustomMetric4 | pkg/registry/registry_test.go:141-145 | metric4 is NotFound |
| RegistryScenarios.UpdateSourceCustomMetric3 | pkg/registry/registry_test.go:146-150 | metric3 now resolves to source1 |
| RegistryScenarios.UpdateSourceCustomMetric2 | pkg/registry/registry_test.go:151-155 | metric2 resolves to source2 |
| RegistryScenarios.UpdateSourceCustomMetric1 | pkg/registry/registry_test.go:156-160 | metric1 resolves to source1 |
| RegistryScenarios.UpdateSourceServingExternalMetrics | pkg/registry/registry_test.go:163-180 | the update of source1 succeeds and counts 2 |
| RegistryScenarios.UpdateSourceListsExternalMetrics | pkg/registry/registry_test.go:181 | the three remaining external metrics are listed |
| RegistryScenarios.UpdateSourceExternalMetric4 | pkg/registry/registry_test.go:183-187 | metric4 is NotFound |
| RegistryScenarios.UpdateSourceExternalMetric3 | pkg/registry/registry_test.go:188-192 | metric3 now resolves to source1 |
| RegistryScenarios.UpdateSourceExternalMetric2 | pkg/registry/registry_test.go:193-197 | metric2 resolves to source2 |
| RegistryScenarios.UpdateSourceExternalMetric1 | pkg/registry/registry_test.go:198-202 | metric1 resolves to source1 |
| RegistryScenarios.RemoveSourceForgetsIt | pkg/registry/registry_test.go:238-247 | after deleting source1 the directory holds source2 alone |
| RegistryScenarios.RemoveSourceListsCustomMetrics | pkg/registry/registry_test.go:248 | exactly custom_metric1 and custom_metric2 remain |
| RegistryScenarios.RemoveSourceListsExternalMetrics | pkg/registry/registry_test.go:249 | exactly external_metric1 and external_metric2 remain |
| RegistryScenarios.RemoveSourceCustomMetric3 | pkg/registry/registry_test.go:251-255 | custom_metric3 is NotFound |
| RegistryScenarios.RemoveSourceExternalMetric3 | pkg/registry/registry_test.go:256-260 | any external metric other than the two remaining is NotFound |
| RegistryScenarios.RemoveSourceCustomMetric1 | pkg/registry/registry_test.go:261-265 | custom_metric1 resolves to source2 |
| RegistryScenarios.RemoveSourceCustomMetric2 | pkg/registry/registry_test.go:266-270 | custom_metric2 resolves to source2 |
| RegistryScenarios.RemoveLastSource | pkg/registry/registry_test.go:273-298 | deleting the only source empties the registry; metric1 to metric3 are NotFound |
| MetricsourceServices.LessIsStrictOrder | pkg/controllers/metricsource/services.go:33-43 | `Less` holds iff lower priority, or equal priority and a smaller name; it is a strict order |
| MetricsourceServices.LessIgnoresNamespace | pkg/controllers/metricsource/services.go:33-43 | sources differing only in namespace are not ordered: the namespace takes no part in the tie-break |
| MetricsourceServices.Less | pkg/controllers/metricsource/services.go:33-43 | a lower priority always comes first, and a source comes first only if its priority is not higher |
| MetricsourceServices.Sort | pkg/controllers/metricsource/services.go:67 | `sort.Sort`: a sorted permutation with exactly the input's sources |
| MetricsourceServices.ReplaceOrAppend | pkg/controllers/metricsource/services.go:55-66 | the result holds the new source, every source of another namespaced name, and nothing but old sources and the new one; it has the old length or one more |
| MetricsourceServices.RemoveLast | pkg/controllers/metricsource/services.go:71-78 | the result holds only old sources and every source of another namespaced name; it has the old length or one less |
| MetricsourceServices.AfterAddOrUpdate | pkg/controllers/metricsource/services.go:54-68 | the list `AddOrUpdateSource` leaves is sorted, holds the new source and every source of another namespaced name, and nothing else but old sources |
| MetricsourceServices.AfterRemove | pkg/controllers/metricsource/services.go:70-85 | the list `RemoveSource` leaves holds only old sources, and every source of another namespaced name |
| MetricsourceServices.ReplaceAt | pkg/controllers/metricsource/services.go:55-63 | with the first match of namespace and name at `i`, the source is replaced in place |
| MetricsourceServices.AppendWhenAbsent | pkg/controllers/metricsource/services.go:62-66 | a source whose namespaced name is absent is appended |
| MetricsourceServices.RemoveAt | pkg/controllers/metricsource/services.go:71-78 | with the last match at `i`, exactly that source is spliced out |
| MetricsourceServices.AddOrUpdateSource | pkg/controllers/metricsource/services.go:54-68 | the scan, replace or append, and sort produce `AfterAddOrUpdate` |
| MetricsourceServices.RemoveSource | pkg/controllers/metricsource/services.go:70-85 | the scan, splice and sort produce `AfterRemove`; the flag is true iff the list is NON-empty afterwards |
| MetricsourceServices.GetBestMetricService | pkg/controllers/metricsource/services.go:87-93 | an error iff the list is empty, otherwise its first source |
| MetricsourceServices.BestIsLowestPriority | pkg/controllers/metricsource/services.go:87-93 | on a sorted list the first source has the lowest priority, and no source of that priority has a smaller name |
| MetricsourceServices.KeysUniquePermutation | pkg/controllers/metricsource/services.go:67 | reordering keeps namespaced names unique |
| MetricsourceServices.RepeatedInUnique | pkg/controllers/metricsource/services.go:54-68 | in a list with unique namespaced names no source occurs twice |
| MetricsourceServices.SortKeeps | pkg/controllers/metricsource/services.go:67 | sorting gives a sorted permutation with the same members, keeping names unique |
| MetricsourceServices.ReplaceOrAppendMembers | pkg/controllers/metricsource/services.go:54-66 | replace-or-append keeps namespaced names unique and holds the new source plus the others; it is one longer iff absent |
| MetricsourceServices.ReplacedUnique | pkg/controllers/metricsource/services.go:62-63 | replacing in place keeps namespaced names unique |
| MetricsourceServices.AppendedUnique | pkg/controllers/metricsource/services.go:64-66 | appending an absent source keeps namespaced names unique |
| MetricsourceServices.ReplacedMember | pkg/controllers/metricsource/services.go:62-63 | after replacement the members are the new source and the old ones of other namespaced names |
| MetricsourceServices.RemoveLastMembers | pkg/controllers/metricsource/services.go:70-78 | the splice keeps every other source and drops the named one, one shorter when present |
| MetricsourceServices.AddOrUpdateSourceSpec | pkg/controllers/metricsource/services.go:54-68 | the result is sorted, has unique names and is a permutation of the replaced-or-appended list; it holds the new source and every source of another namespaced name; it is one longer iff absent |
| MetricsourceServices.AddOrUpdateInPlace | pkg/controllers/metricsource/services.go:54-68 | updating a listed source whose priority is unchanged replaces it at its place: the sort moves nothing |
| MetricsourceServices.AddOrUpdateListed | pkg/controllers/metricsource/services.go:54-68 | adding a source the list already holds gives back the same list |
| MetricsourceServices.RemoveSourceSpec | pkg/controllers/metricsource/services.go:70-85 | every other source stays and the named one goes; when present the result is sorted and one shorter; when absent the list is unchanged |
| MetricsourceServices.RemoveKeepsSorted | pkg/controllers/metricsource/services.go:76-80 | removal keeps a sorted list sorted whether or not the source was present |
| MetricsourceRegistry.RemoveStep | pkg/controllers/metricsource/registry.go:81-83 | one outdated metric processed: its list loses the source and stays in the index |
| MetricsourceRegistry.UpsertStep | pkg/controllers/metricsource/registry.go:85-92 | one served metric processed: the source is added or updated in its list, created when missing |
| MetricsourceRegistry.DeleteStep | pkg/controllers/metricsource/registry.go:150-155 | one key processed by `DeleteService`: deleted when the list still holds a source, kept empty otherwise |
| MetricsourceRegistry.RemoveOutdated | pkg/controllers/metricsource/registry.go:79-84 | the removal loop yields the index with the source removed from each outdated list and no key deleted |
| MetricsourceRegistry.UpsertAll | pkg/controllers/metricsource/registry.go:85-92 | the insertion loop yields the index with the source in every served metric's list |
| MetricsourceRegistry.UpsertOne | pkg/controllers/metricsource/registry.go:86-91 | one iteration of the insertion loop: the metric's list, created when missing, with the source added or updated |
| MetricsourceRegistry.ReindexAll | pkg/controllers/metricsource/registry.go:79-92 | `getOldCustomMetricInfos`, removal and insertion produce the specified reindexed index |
| MetricsourceRegistry.DeleteEverywhere | pkg/controllers/metricsource/registry.go:150-155 | the loop, which deletes as it ranges, yields the specified index |
| MetricsourceRegistry.PartialEffect | pkg/controllers/metricsource/registry.go:94-101 | when external discovery fails: the custom index is reindexed, the backend state and external index are unchanged, and the custom count is returned with the error |
| MetricsourceRegistry.SuccessEffect | pkg/controllers/metricsource/registry.go:70-124 | on success: the new state is keyed by namespaced name, both indexes are reindexed, and the count is the number of served metrics |
| MetricsourceRegistry.UpdateMaps | pkg/controllers/metricsource/registry.go:55-125 | the step-by-step body, with `metricCount` accumulated, computes the specified effect, error paths included |
| MetricsourceRegistry.CanAddOrUpdate | pkg/controllers/metricsource/registry.go:79-84 | what the update needs so that no removal reaches a missing list; it always holds for a backend the state does not know |
| MetricsourceRegistry.AddOrUpdate | pkg/controllers/metricsource/registry.go:55-125 | success exactly when the client and both listings succeed; on failure the backend state and the external index are unchanged; on success the state holds the new client under the namespaced name |
| MetricsourceRegistry.Delete | pkg/controllers/metricsource/registry.go:147-157 | the backend state is forgotten, the custom index gains no key, and the external index is untouched |
| MetricsourceRegistry.Resolve | pkg/controllers/metricsource/registry.go:159-182 | NotFound exactly for a metric without a list; a client only from the backend state of the head of a non-empty list |
| MetricsourceRegistry.Registry.constructor | pkg/controllers/metricsource/registry.go:41-52 | a new registry is empty |
| MetricsourceRegistry.Registry.AddOrUpdateService | pkg/controllers/metricsource/registry.go:55-125 | the new state, count and error are those of the specification `AddOrUpdate` on the old state |
| MetricsourceRegistry.Registry.DeleteService | pkg/controllers/metricsource/registry.go:147-157 | the new state is the as-written specification `Delete` of the old one |
| MetricsourceRegistry.Registry.GetMetricsBackend | pkg/controllers/metricsource/registry.go:159-182 | NotFound, NoBackend for an empty list, MissingProperties on a state miss by namespaced name, otherwise the first source's client |
| MetricsourceRegistry.Registry.GetExternalMetricsBackend | pkg/controllers/metricsource/registry.go:183-206 | the same resolution over the external index |
| MetricsourceRegistry.Registry.ListAllCustomMetrics | pkg/controllers/metricsource/registry.go:208-218 | every key of the custom index, each once, empty lists included |
| MetricsourceRegistry.Registry.ListAllExternalMetrics | pkg/controllers/metricsource/registry.go:220-230 | every key of the external index, each once |
| MetricsourceProofs.EmptyConsistent | pkg/controllers/metricsource/registry.go:41-52 | the empty registry is consistent |
| MetricsourceProofs.HasKeyOfMember | pkg/controllers/metricsource/services.go:72-76 | a member's namespaced name is found by the scan |
| MetricsourceProofs.MemberOfHasKey | pkg/controllers/metricsource/services.go:72-76 | a namespaced name the scan finds belongs to a member |
| MetricsourceProofs.PreviousIndexed | pkg/controllers/metricsource/registry.go:79-84 | on a consistent registry every metric a known backend served has a list, so the removal never meets a nil list |
| MetricsourceProofs.ReindexAt | pkg/controllers/metricsource/registry.go:79-92 | per metric: a served one lists the source exactly once, as the new object, in a sorted list; a dropped one keeps its list, possibly empty, without the source; others are untouched |
| MetricsourceProofs.ReindexSorted | pkg/controllers/metricsource/registry.go:79-92 | reindexing keeps every list sorted with unique names |
| MetricsourceProofs.AddOrUpdateKeepsListsSorted | pkg/controllers/metricsource/registry.go:55-125 | on every path, including the partial one, both indexes stay sorted with unique names |
| MetricsourceProofs.AddOrUpdateOutcome | pkg/controllers/metricsource/registry.go:55-125 | client or custom failure: no change, count 0; external failure: backend state and external index unchanged, custom count; success: new state stored, full count; success iff all three answers succeed |
| MetricsourceProofs.RemovedAt | pkg/controllers/metricsource/registry.go:79-84 | one list after the removal phase: sorted, taken from the old one, without the source where removed, and still naming the others |
| MetricsourceProofs.RemovePhase | pkg/controllers/metricsource/registry.go:79-84 | the removal phase on a consistent index keeps the keys, drops the source where it no longer serves, and keeps every other server |
| MetricsourceProofs.UpsertTouched | pkg/controllers/metricsource/registry.go:85-92 | a touched list is sorted with unique names and holds the new source and the others it held |
| MetricsourceProofs.UpsertedEntry | pkg/controllers/metricsource/registry.go:85-92 | where a listed source after insertion comes from |
| MetricsourceProofs.UpsertLists | pkg/controllers/metricsource/registry.go:85-92 | insertion keeps every list sorted with unique names |
| MetricsourceProofs.UpsertedEntryServes | pkg/controllers/metricsource/registry.go:85-92 | each source listed after insertion has a backend state that serves the key at the source's priority |
| MetricsourceProofs.UpsertEntries | pkg/controllers/metricsource/registry.go:85-92 | every listed source serves its metric after insertion |
| MetricsourceProofs.UpsertedServed | pkg/controllers/metricsource/registry.go:85-92 | one served metric lists its backend after insertion |
| MetricsourceProofs.UpsertServed | pkg/controllers/metricsource/registry.go:85-92 | every served metric lists its backend after insertion |
| MetricsourceProofs.UpsertPhase | pkg/controllers/metricsource/registry.go:85-92 | after the removal phase, insertion makes the index consistent with the new backend state |
| MetricsourceProofs.ReindexConsistent | pkg/controllers/metricsource/registry.go:79-115 | reindexing a consistent index is defined and gives an index consistent with the updated backend state |
| MetricsourceProofs.AddOrUpdateKeepsConsistent | pkg/controllers/metricsource/registry.go:55-125 | on a consistent registry no nil-list removal occurs, and a successful call leaves it consistent |
| MetricsourceProofs.SuccessfulUpdateConsistent | pkg/controllers/metricsource/registry.go:70-124 | a successful update keeps the registry consistent |
| MetricsourceProofs.ReindexListed | pkg/controllers/metricsource/registry.go:79-115 | reindexing a consistent index for a source that serves what it served, when each of its lists holds it, changes nothing |
| MetricsourceProofs.AddOrUpdateIdempotent | pkg/controllers/metricsource/registry.go:55-125 | re-adding an object its lists already hold, with the recorded priority and listings, succeeds and leaves both indexes as they were; only the client changes |
| MetricsourceProofs.ResolveOnConsistent | pkg/controllers/metricsource/registry.go:159-206 | on a consistent index: an error iff no backend serves the metric; never MissingProperties; NoBackend only for an emptied list; otherwise the client of a lowest-priority server |
| MetricsourceProofs.GetMetricsBackendOnConsistent | pkg/controllers/metricsource/registry.go:159-182 | the same for the custom lookup of a consistent registry |
| MetricsourceProofs.GetExternalMetricsBackendOnConsistent | pkg/controllers/metricsource/registry.go:183-206 | the same for the external lookup |
| MetricsourceProofs.DeleteDropsSharedMetrics | pkg/controllers/metricsource/registry.go:150-155 | as written, on any consistent registry, a metric that another backend also serves loses its list and is NotFound although that backend still serves it |
| MetricsourceProofs.DeleteKeepsOnlyEmptied | pkg/controllers/metricsource/registry.go:147-157 | as written, a custom key survives iff removal empties its list, and then its list is empty; the external index is untouched; the state is forgotten |
| MetricsourceProofs.TwoSourcesExist | pkg/controllers/metricsource/services.go:33-43 | the counterexample's two sources exist: "a" at priority 1 and "b" at priority 2 |
| MetricsourceProofs.DeleteFixtureLists | pkg/controllers/metricsource/services.go:33-43 | the counterexample's lists are sorted with unique names |
| MetricsourceProofs.DeleteFixtureConsistent | pkg/controllers/metricsource/registry.go:55-125 | the counterexample's pre-state is consistent |
| MetricsourceProofs.FixtureCustomConsistent | pkg/controllers/metricsource/registry.go:85-92 | its custom index is consistent |
| MetricsourceProofs.FixtureExternalConsistent | pkg/controllers/metricsource/registry.go:108-115 | its external index is consistent |
| MetricsourceProofs.DeleteServiceLosesMetric | pkg/controllers/metricsource/registry.go:147-157 | as written, deleting `a`: the shared metric is NotFound though `b` serves it; `a`'s external metric gives MissingProperties; `b`'s next update dropping the metric would remove from a missing list |
| MetricsourceProofs.PrunedAt | pkg/controllers/metricsource/registry.go:147-157 | one list after the corrected deletion: the sorted list without the source, kept iff non-empty, still naming the others |
| MetricsourceProofs.PruneConsistent | pkg/controllers/metricsource/registry.go:147-157 | the corrected deletion keeps an index consistent with the state without the source |
| MetricsourceProofs.DeleteCorrectedKeepsConsistent | pkg/controllers/metricsource/registry.go:147-157 | the corrected deletion keeps the registry consistent, and no list of either index names the source |
| MetricsourceProofs.DeleteCorrectedKeepsMetric | pkg/controllers/metricsource/registry.go:147-157 | on the counterexample the corrected deletion resolves the shared metric to `b` and reports `a`'s external metric as NotFound |
| MetricsourceProofs.PruneFixtureCustom | pkg/controllers/metricsource/registry.go:150-155 | on the counterexample the corrected deletion leaves `[b]` for the shared metric |
| MetricsourceProofs.RemoveFirstOfTwo | pkg/controllers/metricsource/services.go:70-85 | removing `a` from the counterexample's list `[a, b]` leaves `[b]` |
| MetricsourceProofs.PruneFixtureExternal | pkg/controllers/metricsource/registry.go:150-155 | on the counterexample the corrected deletion removes `a`'s emptied external list |

## Left out

- Locking (`sync.RWMutex`): each public operation is one atomic step.
  - The class methods compute the new maps on values and store them once at the end.
  - The lock makes the intermediate states invisible to other callers, so this is equivalent.
- Network and discovery. `NewClient`, `ServerResourcesForGroupVersion` and the client provider are
  not modelled. Their answers are parameters of the operations: a client or an error, a resource
  listing or an error.
- `schema.ParseGroupResource` is library code; it is a function parameter, left uninterpreted.
- The value-fetch methods `GetMetricByName`, `GetMetricBySelector` and `GetExternalMetric`: they
  are remote calls plus field copying of library types.
- Logging and error text. `klog` calls are dropped, and errors are the `Error` datatype, not
  `StatusError` values or message strings.
  - The log call that dereferences the client (pkg/registry/registry.go:201, 226) cannot fail,
    because a client is a value.
- `IsMarkedForDeletion`: it depends on the internals of Kubernetes timestamps.
- `Len`, `Swap`, `newMetricsSources` and `NewMetricServiceList`: they are list plumbing. A new list
  is `[]`, and the sort is a function on sequences.
- `SetupMetricsSourceController` is not part of this model, so where the serving-path registry is
  created is not shown. Its constructor stands for a registry with three empty maps.
- Wiring: the reconciler, the provider's delegations, command-line handling and process start.
- Slices held through pointers are modelled as values in the maps. Outside a call, no two keys
  share one list, so nothing observable changes.
- Priorities are unbounded integers. The registry only compares them, so Go's 64-bit `int` makes
  no difference. The metric count cannot wrap for any realistic number of metrics.
- Go's random map iteration order: the listing methods return some order. Their contract states
  the contents, the size and the absence of repeats, not the order.
- Sorting.SortBy: an insertion sort stands for `sort.Sort`, which is not stable.
  - In `pkg/registry` names are unique and the order is total, so every correct sort gives the
    same list (`Sorting.StrictlySortedUnique`).
- MetricsourceServices.Sort: the serving-path order ignores the namespace, so it is not total.
  - `sort.Sort` may order two sources that differ only in namespace either way.
  - The model fixes one such order. The proved contracts (sorted, a permutation, names unique,
    lowest priority first) hold for every order `sort.Sort` may choose.
- Registry.Registry.AddOrUpdateSource and MetricsourceRegistry.Registry.AddOrUpdateService: the
  nil-pointer panic of a removal from a missing list is not modelled as a panic.
  - In Go the removal dereferences `r.customMetrics[removedMetric]` or
    `r.externalMetrics[removedMetric]` (pkg/registry/registry.go:98, :121;
    pkg/controllers/metricsource/registry.go:82, :105), which is nil when the key is absent.
  - The model makes the absence of such a key a precondition (`CanAddOrUpdate`), required only
    once the client is built, because a failing `NewClient` returns before any list is touched.
  - On a consistent registry the precondition always holds (`RegistryProofs.PreviousIndexed`,
    `MetricsourceProofs.PreviousIndexed`, and the first clause of each `AddOrUpdateKeepsConsistent`).
- MetricsourceProofs.AddOrUpdateIdempotent: requires that every list the source serves holds the
  very object being re-added. The lists keep copies of whole `MetricsSource` objects, so a
  re-added object that differs in a field other than its name, namespace and priority replaces
  the copy in place (`MetricsourceServices.AddOrUpdateInPlace`) rather than leaving the index equal.
- GoStrings.ToLower: handles ASCII letters only. The schemes in use are ASCII.
- Test fixtures of pkg/registry/fixtures.go are written out as explicit states: each list is built
  in insertion order, unsorted, as the helpers do.
- The fake client provider of the tests is modelled as a client value per source.
- MetricsourceProofs.AddOrUpdateKeepsConsistent: states consistency only for a successful call.
  - A failed external listing leaves a half-updated custom index, as in `pkg/registry` (first
    finding).
  - Only list sortedness is proved for that path (`MetricsourceProofs.AddOrUpdateKeepsListsSorted`).

## Findings

| source | as written | input that shows it | evidently intended | confidence | as-written member | corrected member |
|---|---|---|---|---|---|---|
| pkg/registry/registry.go:93-116 | when the external listing fails, the custom index has already been rewritten; the directory keeps the old record and the call returns `(0, err)` | source "a" at priority 100 serves custom metric m and declares both kinds; its update lists no custom metric and then fails to list external ones | an update either completes or leaves the registry unchanged | not executed | RegistryProofs.PartialUpdateBreaksRetry | RegistryProofs.AtomicKeepsConsistent |
| pkg/controllers/metricsource/registry.go:150-155 | `DeleteService` deletes the custom keys whose list still holds a source and keeps the emptied ones; it never visits the external index | backends "a" (priority 1) and "b" (priority 2) both serve custom metric m, and "a" serves external metric e; delete "a" | remove the source from every list of both indexes and delete exactly the emptied lists, as the reconciler's registry does at pkg/registry/registry.go:160-177 | not executed | MetricsourceProofs.DeleteServiceLosesMetric | MetricsourceProofs.DeleteCorrectedKeepsConsistent |

- First finding, as written:
  - m's list is gone while the directory still says that "a" serves m;
  - m is NotFound;
  - the registry is no longer consistent;
  - a retry with the same answers would call `removeSource` on the missing list.
- First finding, corrected: `RegistryProofs.AddOrUpdateAtomic` obtains every answer before
  changing anything. On every path it keeps a consistent registry consistent.
- Second finding, as written:
  - m is NotFound although "b" still serves it;
  - e still lists "a", whose backend state is gone, so its lookup fails with MissingProperties;
  - the next update of "b" that drops m would call `RemoveSource` on a nil list.
  - `MetricsourceProofs.DeleteDropsSharedMetrics` states the loss of a shared metric for every
    consistent registry.
- Second finding, corrected: `MetricsourceProofs.DeleteCorrected` prunes both indexes. It keeps
  the registry consistent, and on the same input resolves m to "b"
  (`MetricsourceProofs.DeleteCorrectedKeepsMetric`).
- The registry classes model the code as written. The corrected definitions sit beside them and
  carry the intended properties.
