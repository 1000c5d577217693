/** The MetricsSource descriptor (API group v1alpha1) and its helper methods: port and scheme
    defaults, the service URL, and the tests for which metric kinds a source declares. */
module MetricsSourceTypes {
  import opened Common
  import opened GoStrings

  newtype int32 = x: int | -0x8000_0000 <= x < 0x8000_0000

  /** The port used when a descriptor names none. */
  const DefaultBackendPort: int32 := 443

  /** corev1.URISchemeHTTPS. */
  const URISchemeHTTPS: string := "HTTPS"

  const CustomMetrics: string := "CustomMetrics"
  const ExternalMetrics: string := "ExternalMetrics"

  /** types.NamespacedName. */
  datatype NamespacedName = NamespacedName(namespace: string, name: string)

  /** A port given by number; a nil Number is `None`. */
  datatype ServiceBackendPort = ServiceBackendPort(number: Option<int32>)

  datatype MetricsServiceBackend = MetricsServiceBackend(
    namespace: string,
    name: string,
    scheme: string,
    port: ServiceBackendPort)

  datatype MetricsSourceSpec = MetricsSourceSpec(
    metricsServiceBackend: MetricsServiceBackend,
    insecureSkipTLSVerify: bool,
    priority: int,
    metricTypes: seq<string>)

  /** A MetricsSource object; of its metadata only the name and namespace matter here. */
  datatype MetricsSource = MetricsSource(name: string, namespace: string, spec: MetricsSourceSpec)

  /** ServiceBackendPort.Port: the configured number, or 443 when there is none. */
  function Port(p: ServiceBackendPort): (r: int32)
    ensures p.number.Some? ==> r == p.number.value
    ensures p.number.None? ==> r == 443
  {
    match p.number
    case None => DefaultBackendPort
    case Some(n) => n
  }

  /** ServiceBackendPort.String: the port in decimal. */
  function PortString(p: ServiceBackendPort): (s: string)
    ensures ParseInt(s) == Some(Port(p) as int)
  {
    ItoaRoundTrip(Port(p) as int);
    Itoa(Port(p) as int)
  }

  function BackendNamespacedName(m: MetricsServiceBackend): (nn: NamespacedName)
    ensures nn.namespace == m.namespace && nn.name == m.name
  {
    NamespacedName(m.namespace, m.name)
  }

  /** MetricsServiceBackend.scheme: HTTPS when no scheme is given. */
  function Scheme(m: MetricsServiceBackend): (r: string)
    ensures m.scheme == "" ==> r == URISchemeHTTPS
    ensures m.scheme != "" ==> r == m.scheme
  {
    if m.scheme == "" then URISchemeHTTPS else m.scheme
  }

  /** MetricsServiceBackend.URL: `scheme://name.namespace.svc:port`, the scheme in lower case. */
  function URL(m: MetricsServiceBackend): (r: string)
    ensures ToLower(Scheme(m)) + "://" <= r
    ensures AfterLast(r, ':') == Itoa(Port(m.port) as int)
  {
    var scheme := ToLower(Scheme(m)) + "://";
    var host := m.name + "." + m.namespace + ".svc";
    var digits := Itoa(Port(m.port) as int);
    ItoaHasNoColon(Port(m.port) as int);
    AfterLastSuffix(scheme + host, ':', digits);
    PrefixOfConcat(scheme, host, [':'], digits);
    scheme + host + [':'] + digits
  }

  /** The port can be read back from the URL: it is what follows the last colon. */
  lemma URLPortRoundTrip(m: MetricsServiceBackend)
    ensures ParseInt(AfterLast(URL(m), ':')) == Some(Port(m.port) as int)
  {
    ItoaRoundTrip(Port(m.port) as int);
  }

  lemma LowerHTTPS()
    ensures ToLower(URISchemeHTTPS) == "https"
  {
    var r := ToLower(URISchemeHTTPS);
    assert |r| == 5 && r[0] == 'h' && r[1] == 't' && r[2] == 't' && r[3] == 'p' && r[4] == 's';
  }

  lemma Itoa443()
    ensures Itoa(443) == "443"
  {
    assert Digits(4) == "4";
    assert Digits(44) == Digits(4) + [DigitChar(4)];
    assert Digits(443) == Digits(44) + [DigitChar(3)];
  }

  /** A backend that names only a service gets the HTTPS scheme and port 443. */
  lemma URLDefaults(namespace: string, name: string)
    ensures URL(MetricsServiceBackend(namespace, name, "", ServiceBackendPort(None)))
         == "https://" + name + "." + namespace + ".svc:443"
  {
    var m := MetricsServiceBackend(namespace, name, "", ServiceBackendPort(None));
    assert Scheme(m) == URISchemeHTTPS;
    LowerHTTPS();
    assert Port(m.port) as int == 443;
    Itoa443();
  }

  /** MetricTypes.contains: a search loop that returns as soon as it meets `metric`. */
  method Contains(types: seq<string>, metric: string) returns (found: bool)
    ensures found <==> exists i :: 0 <= i < |types| && types[i] == metric
  {
    for i := 0 to |types|
      invariant forall j :: 0 <= j < i ==> types[j] != metric
    {
      if types[i] == metric {
        return true;
      }
    }
    return false;
  }

  /** The source declares the custom kind. */
  predicate DeclaresCustomMetrics(types: seq<string>) {
    CustomMetrics in types
  }

  /** The source declares the external kind. */
  predicate DeclaresExternalMetrics(types: seq<string>) {
    ExternalMetrics in types
  }

  /** MetricTypes.HasCustomMetrics: the search loop run for the custom kind. */
  method HasCustomMetrics(types: seq<string>) returns (r: bool)
    ensures r <==> DeclaresCustomMetrics(types)
  {
    r := Contains(types, CustomMetrics);
  }

  /** MetricTypes.HasExternalMetrics: the search loop run for the external kind. */
  method HasExternalMetrics(types: seq<string>) returns (r: bool)
    ensures r <==> DeclaresExternalMetrics(types)
  {
    r := Contains(types, ExternalMetrics);
  }

  /** MetricsSource.NamespacedNamed. */
  function NamespacedNamed(m: MetricsSource): (nn: NamespacedName)
    ensures nn.namespace == m.namespace && nn.name == m.name
  {
    NamespacedName(m.namespace, m.name)
  }
}
