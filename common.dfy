/** Error values and the optional/fallible results that the registries return, and the facts
    about maps that the index proofs share. */
module Common {

  /** The error conditions the registries and the discovery client report. The message texts
      of the Go errors are not modelled, only which condition was reported. */
  datatype Error =
    | NotFound           // a Kubernetes StatusError with reason NotFound: no backend serves the metric
    | NoBackend          // "not backend for metric": the ranked list exists but is empty
    | MissingProperties  // the winning source has no entry in the source directory
    | DiscoveryFailed    // listing the metrics of a backend failed
    | ClientFailed       // building the client of a backend failed

  datatype Option<+T> = None | Some(value: T)

  datatype Result<+T> = Success(value: T) | Failure(error: Error)

  /** A map that has one key more than `r`, holds `v` there and agrees with `r` elsewhere is `r`
      updated at that key. */
  lemma MapUpdated<K, V>(a: map<K, V>, r: map<K, V>, k: K, v: V)
    requires a.Keys == r.Keys + {k} && a[k] == v
    requires forall j :: j in r && j != k ==> a[j] == r[j]
    ensures a == r[k := v]
  {
  }

  /** A map that has the keys of `r` but `k` and agrees with `r` on them is `r` without `k`. */
  lemma MapRemoved<K, V>(a: map<K, V>, r: map<K, V>, k: K)
    requires a.Keys == r.Keys - {k}
    requires forall j :: j in a ==> a[j] == r[j]
    ensures a == r - {k}
  {
  }
}
