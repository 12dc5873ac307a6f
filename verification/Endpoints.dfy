/** The endpoints that the extension server resolves for a TailscaleService. */
module Endpoints {
  import opened Options
  import opened Text
  import opened Api
  import opened Validation
  import opened Decoders
  import opened Selections

  datatype Endpoint = Endpoint(host: string, port: nat)

  const PLACEHOLDER := "100.100.100.1"

  function EndpointAt(addr: string): Endpoint {
    var (host, port) := AddressOf(addr);
    Endpoint(host, port)
  }

  /** The endpoints of the addresses that have a host, in order. */
  function EndpointsAt(addrs: seq<string>): seq<Endpoint> {
    if addrs == [] then []
    else
      var last := |addrs| - 1;
      EndpointsAt(addrs[..last]) + if EndpointAt(addrs[last]).host != "" then [EndpointAt(addrs[last])] else []
  }

  /** Where a backend points; other TailscaleServices are not resolved. */
  function TargetOf(b: BackendSpec): string {
    if b.kind == "kubernetes" then b.service
    else if b.kind == "external" then b.address
    else ""
  }

  function TargetsOf(backends: seq<BackendSpec>): seq<string> {
    seq(|backends|, i requires 0 <= i < |backends| => TargetOf(backends[i]))
  }

  function PlaceholdersFor(ports: seq<string>): seq<Endpoint> {
    seq(|ports|, i requires 0 <= i < |ports| => Endpoint(PLACEHOLDER, PortOf(ports[i])))
  }

  /** The four stages, each tried when those before it give nothing. */
  function EndpointsOf(addresses: seq<string>, spec: ServiceSpec): seq<Endpoint> {
    if EndpointsAt(addresses) != [] then EndpointsAt(addresses)
    else if EndpointsAt(TargetsOf(spec.backends)) != [] then EndpointsAt(TargetsOf(spec.backends))
    else if spec.vipService.ports != [] then PlaceholdersFor(spec.vipService.ports)
    else [Endpoint(PLACEHOLDER, DEFAULT_PORT)]
  }

  function VIPAddresses(status: ServiceStatus): seq<string> {
    if status.vip.Some? then status.vip.value.addresses else []
  }

  lemma {:induction false} EndpointsAtExtends(addrs: seq<string>, i: nat)
    requires i < |addrs|
    ensures EndpointsAt(addrs[..i + 1]) ==
              EndpointsAt(addrs[..i]) + if EndpointAt(addrs[i]).host != "" then [EndpointAt(addrs[i])] else []
  {
    assert addrs[..i + 1][..i] == addrs[..i];
  }

  method ResolveTailscaleServiceEndpoints(service: TailscaleService) returns (lbEndpoints: seq<Endpoint>)
    ensures lbEndpoints == EndpointsOf(VIPAddresses(service.status), service.spec)
  {
    hide EndpointsAt, AddressOf, PortOf;
    lbEndpoints := [];
    var addresses := VIPAddresses(service.status);
    NoEndpointsAtNothing(addresses);
    if service.status.vip.Some? && |addresses| > 0 {
      for i := 0 to |addresses|
        invariant lbEndpoints == EndpointsAt(addresses[..i])
      {
        EndpointsAtExtends(addresses, i);
        var host, port := ParseAddress(addresses[i]);
        if host != "" {
          lbEndpoints := lbEndpoints + [Endpoint(host, port)];
        }
      }
    }
    assert addresses[..|addresses|] == addresses;
    if |lbEndpoints| == 0 {
      lbEndpoints := ResolveBackends(service.spec.backends);
    }
    if |lbEndpoints| == 0 {
      var ports := service.spec.vipService.ports;
      for i := 0 to |ports|
        invariant lbEndpoints == PlaceholdersFor(ports)[..i]
      {
        var port := ParsePortFromVIPPortString(ports[i]);
        lbEndpoints := lbEndpoints + [Endpoint(PLACEHOLDER, port)];
      }
    }
    if |lbEndpoints| == 0 {
      lbEndpoints := [Endpoint(PLACEHOLDER, DEFAULT_PORT)];
    }
  }

  lemma {:induction false} NoEndpointsAtNothing(addrs: seq<string>)
    ensures EndpointsAt(addrs[..0]) == []
  {
  }

  /** The second stage: the configured backends. */
  method ResolveBackends(backends: seq<BackendSpec>) returns (lbEndpoints: seq<Endpoint>)
    ensures lbEndpoints == EndpointsAt(TargetsOf(backends))
  {
    hide EndpointsAt;
    var targets := TargetsOf(backends);
    lbEndpoints := [];
    NoEndpointsAtNothing(targets);
    for i := 0 to |backends|
      invariant lbEndpoints == EndpointsAt(targets[..i])
    {
      EndpointsAtExtends(targets, i);
      var backend := backends[i];
      if backend.kind == "kubernetes" {
        if backend.service != "" {
          var host, port := ParseAddress(backend.service);
          if host != "" {
            lbEndpoints := lbEndpoints + [Endpoint(host, port)];
          }
        }
      } else if backend.kind == "external" {
        if backend.address != "" {
          var host, port := ParseAddress(backend.address);
          if host != "" {
            lbEndpoints := lbEndpoints + [Endpoint(host, port)];
          }
        }
      }
    }
    assert targets[..|targets|] == targets;
  }

  /** Whatever the service, Envoy is never given an empty cluster. */
  lemma {:induction false} NeverEmpty(service: TailscaleService)
    ensures EndpointsOf(VIPAddresses(service.status), service.spec) != []
  {
  }

  // ------------------------------------------------------------------ which stage decides

  /** What the extension server makes of a text: the host and the port of `AddressOf`. */
  predicate IsAt(endpoint: Endpoint, addr: string) {
    endpoint.host == AddressOf(addr).0 && endpoint.port == AddressOf(addr).1
  }

  /** The texts at these indices have a host. */
  function HasHost(addrs: seq<string>): nat -> bool {
    (i: nat) => i < |addrs| && AddressOf(addrs[i]).0 != ""
  }

  /** The endpoints are exactly those of the texts that have a host, in order. */
  ghost predicate OnePerHost(endpoints: seq<Endpoint>, addrs: seq<string>, kept: seq<nat>) {
    && AreKept(kept, |addrs|, HasHost(addrs)) && |endpoints| == |kept|
    && forall j | 0 <= j < |kept| :: kept[j] < |addrs| && IsAt(endpoints[j], addrs[kept[j]])
  }

  lemma {:induction false} EndpointsAtExactly(addrs: seq<string>) returns (kept: seq<nat>)
    ensures OnePerHost(EndpointsAt(addrs), addrs, kept)
  {
    hide AddressOf, AreKept;
    if addrs == [] {
      kept := [];
      assert AreKept(kept, 0, HasHost(addrs)) by { NothingKept(HasHost(addrs)); }
    } else {
      var last := |addrs| - 1;
      var front := EndpointsAtExactly(addrs[..last]);
      KeptAlike(front, last, HasHost(addrs[..last]), HasHost(addrs));
      KeptExtends(front, last, HasHost(addrs));
      kept := if HasHost(addrs)(last) then front + [last] else front;
    }
  }

  /** Texts that are a host, a colon and a number. */
  predicate ArePrinted(addrs: seq<string>, hosts: seq<string>, ports: seq<nat>) {
    && |addrs| == |hosts| == |ports|
    && forall i | 0 <= i < |addrs| ::
         addrs[i] == hosts[i] + ":" + Decimal(ports[i]) && hosts[i] != "" && ports[i] <= 0xFFFF_FFFF
  }

  lemma {:induction false} PrintedAreResolved(addrs: seq<string>, hosts: seq<string>, ports: seq<nat>)
    requires ArePrinted(addrs, hosts, ports)
    ensures |EndpointsAt(addrs)| == |addrs|
    ensures forall i | 0 <= i < |addrs| :: EndpointsAt(addrs)[i] == Endpoint(hosts[i], ports[i])
  {
    hide AddressOf, AreKept, EndpointsAt;
    var kept := EndpointsAtExactly(addrs);
    forall i: nat | i < |addrs| ensures AddressOf(addrs[i]) == (hosts[i], ports[i]) {
      ParseInvertsPrint(hosts[i], ports[i]);
    }
    AllKept(kept, |addrs|, HasHost(addrs));
  }

  lemma {:induction false} SomeHost(addrs: seq<string>)
    ensures EndpointsAt(addrs) != [] <==> exists a <- addrs :: AddressOf(a).0 != ""
  {
    hide AddressOf;
    if addrs != [] { SomeHost(addrs[..|addrs| - 1]); }
  }

  /**
   If a VIP address of the status has a host, the endpoints are exactly those of the VIP
   addresses that have one, in order; the specification has no influence.
   */
  lemma {:induction false} VIPAddressesDecide(service: TailscaleService) returns (kept: seq<nat>)
    requires service.status.vip.Some? && exists a <- service.status.vip.value.addresses :: AddressOf(a).0 != ""
    ensures OnePerHost(EndpointsOf(VIPAddresses(service.status), service.spec),
                       service.status.vip.value.addresses, kept)
  {
    hide EndpointsAt, AddressOf, OnePerHost;
    SomeHost(service.status.vip.value.addresses);
    kept := EndpointsAtExactly(service.status.vip.value.addresses);
  }

  /** So addresses that were printed from hosts and ports are resolved to these. */
  lemma {:induction false} VIPAddressesRoundTrip(service: TailscaleService, hosts: seq<string>, ports: seq<nat>)
    requires service.status.vip.Some? && service.status.vip.value.addresses != []
    requires ArePrinted(service.status.vip.value.addresses, hosts, ports)
    ensures var endpoints := EndpointsOf(VIPAddresses(service.status), service.spec);
            |endpoints| == |hosts| && forall i | 0 <= i < |hosts| :: endpoints[i] == Endpoint(hosts[i], ports[i])
  {
    hide EndpointsAt, AddressOf;
    PrintedAreResolved(service.status.vip.value.addresses, hosts, ports);
  }

  /** The texts that the second stage resolves: nothing for a backend that is another TailscaleService. */
  predicate AreTargets(targets: seq<string>, backends: seq<BackendSpec>) {
    && |targets| == |backends|
    && forall i | 0 <= i < |backends| ::
         && (backends[i].kind == "kubernetes" ==> targets[i] == backends[i].service)
         && (backends[i].kind == "external" ==> targets[i] == backends[i].address)
         && (backends[i].kind !in {"kubernetes", "external"} ==> targets[i] == "")
  }

  lemma {:induction false} TargetsUnique(targets: seq<string>, backends: seq<BackendSpec>)
    requires AreTargets(targets, backends)
    ensures targets == TargetsOf(backends)
  {
  }

  /** Without a usable VIP address, a backend that has a host decides. */
  lemma {:induction false} BackendsDecideNext(service: TailscaleService, targets: seq<string>) returns (kept: seq<nat>)
    requires forall a <- VIPAddresses(service.status) :: AddressOf(a).0 == ""
    requires AreTargets(targets, service.spec.backends) && exists t <- targets :: AddressOf(t).0 != ""
    ensures OnePerHost(EndpointsOf(VIPAddresses(service.status), service.spec), targets, kept)
  {
    hide EndpointsAt, AddressOf, OnePerHost;
    TargetsUnique(targets, service.spec.backends);
    SomeHost(VIPAddresses(service.status));
    SomeHost(targets);
    kept := EndpointsAtExactly(targets);
  }

  lemma {:induction false} BackendsRoundTrip(
    service: TailscaleService, targets: seq<string>, hosts: seq<string>, ports: seq<nat>)
    requires forall a <- VIPAddresses(service.status) :: AddressOf(a).0 == ""
    requires AreTargets(targets, service.spec.backends) && targets != [] && ArePrinted(targets, hosts, ports)
    ensures var endpoints := EndpointsOf(VIPAddresses(service.status), service.spec);
            |endpoints| == |hosts| && forall i | 0 <= i < |hosts| :: endpoints[i] == Endpoint(hosts[i], ports[i])
  {
    hide EndpointsAt, AddressOf;
    TargetsUnique(targets, service.spec.backends);
    SomeHost(VIPAddresses(service.status));
    PrintedAreResolved(targets, hosts, ports);
  }

  /** With neither, there is one endpoint for each VIP port, or one in all. */
  lemma {:induction false} PortsDecideLast(service: TailscaleService, targets: seq<string>)
    requires forall a <- VIPAddresses(service.status) :: AddressOf(a).0 == ""
    requires AreTargets(targets, service.spec.backends) && forall t <- targets :: AddressOf(t).0 == ""
    ensures var endpoints, ports := EndpointsOf(VIPAddresses(service.status), service.spec),
                                    service.spec.vipService.ports;
            if ports == [] then endpoints == [Endpoint("100.100.100.1", 80)]
            else |endpoints| == |ports|
                 && forall i | 0 <= i < |ports| :: endpoints[i] == Endpoint("100.100.100.1", PortOf(ports[i]))
  {
    hide EndpointsAt, AddressOf, PortOf;
    TargetsUnique(targets, service.spec.backends);
    SomeHost(VIPAddresses(service.status));
    SomeHost(targets);
  }

  // ------------------------------------------------------------------ conservation

  predicate IsRoutable(b: BackendSpec) {
    b.kind in {"kubernetes", "external"}
  }

  function Routable(backends: seq<BackendSpec>): seq<BackendSpec> {
    if backends == [] then []
    else
      var b := backends[|backends| - 1];
      Routable(backends[..|backends| - 1]) + if IsRoutable(b) then [b] else []
  }

  lemma {:induction false} UnusableAddresses(addrs: seq<string>)
    requires forall a <- addrs :: EndpointAt(a).host == ""
    ensures EndpointsAt(addrs) == []
  {
    if addrs != [] { UnusableAddresses(addrs[..|addrs| - 1]); }
  }

  /** A target the validator accepts is a host, which is not empty, a colon, and the text of a port. */
  lemma {:induction false} AcceptedTarget(names: PortNames, b: BackendSpec)
    requires ValidateBackendSpec(names, b).Valid? && IsRoutable(b)
    ensures EndpointAt(TargetOf(b)).host != "" && EndpointAt(TargetOf(b)).host + ":" <= TargetOf(b)
    ensures ':' !in EndpointAt(TargetOf(b)).host
  {
    var target := TargetOf(b);
    var k := FirstIndex(target, ':').value;
    var host, text := target[..k], target[k + 1..];
    assert target == host + [':'] + text;
    if b.kind == "external" { DigitsHaveNoColon(text); }
    LastIndexOf(host, ':', text);
    if host == "" { EmptyIsNoName(); }
  }

  lemma {:induction false} EmptyIsNoName()
    ensures !IsDNSName("") && !IsBounded("", IsHostChar)
  {
  }

  /** The endpoints are exactly one for each routable backend, in order. */
  ghost predicate OnePerBackend(endpoints: seq<Endpoint>, backends: seq<BackendSpec>) {
    && |endpoints| == |backends|
    && forall i | 0 <= i < |backends| ::
         endpoints[i].host != "" && endpoints[i] == EndpointAt(TargetOf(backends[i]))
  }

  lemma {:induction false} BackendsConserved(names: PortNames, backends: seq<BackendSpec>)
    requires forall b <- backends :: ValidateBackendSpec(names, b).Valid?
    ensures OnePerBackend(EndpointsAt(TargetsOf(backends)), Routable(backends))
  {
    if backends != [] {
      var front, b := backends[..|backends| - 1], backends[|backends| - 1];
      LastTarget(backends);
      assert b in backends && forall c <- front :: c in backends;
      hide ValidateBackendSpec, EndpointAt, EndpointsAt, TargetsOf, OnePerBackend, IsRoutable;
      BackendsConserved(names, front);
      if IsRoutable(b) {
        AcceptedTarget(names, b);
        OnePerBackendExtends(EndpointsAt(TargetsOf(front)), Routable(front), b);
      } else {
        NotRoutable(b);
        assert EndpointsAt(TargetsOf(front)) + [] == EndpointsAt(TargetsOf(front))
          && Routable(front) + [] == Routable(front);
      }
    } else {
      assert EndpointsAt(TargetsOf([])) == [] by { hide EndpointAt, TargetOf; }
    }
  }

  lemma {:induction false} OnePerBackendExtends(endpoints: seq<Endpoint>, backends: seq<BackendSpec>, b: BackendSpec)
    requires OnePerBackend(endpoints, backends) && EndpointAt(TargetOf(b)).host != ""
    ensures OnePerBackend(endpoints + [EndpointAt(TargetOf(b))], backends + [b])
  {
    hide EndpointAt, TargetOf;
  }

  lemma {:induction false} NotRoutable(b: BackendSpec)
    requires !IsRoutable(b)
    ensures EndpointAt(TargetOf(b)).host == ""
  {
    EmptyHasNoHost();
  }

  lemma {:induction false} LastTarget(backends: seq<BackendSpec>)
    requires backends != []
    ensures var b := backends[|backends| - 1];
            EndpointsAt(TargetsOf(backends)) ==
              EndpointsAt(TargetsOf(backends[..|backends| - 1])) +
              if EndpointAt(TargetOf(b)).host != "" then [EndpointAt(TargetOf(b))] else []
  {
    hide EndpointAt, TargetOf;
    assert TargetsOf(backends)[..|backends| - 1] == TargetsOf(backends[..|backends| - 1]);
  }

  lemma {:induction false} EmptyHasNoHost()
    ensures EndpointAt("").host == ""
  {
  }

  /**
   For a service the validator accepts and that has no usable VIP address, the endpoints
   are one for each kubernetes or external backend, in order and with a host, or, if there
   are no such backends, one for each VIP port.
   */
  lemma {:induction false} EndpointsConserved(names: PortNames, service: TailscaleService)
    requires ValidateTailscaleService(names, service.spec).Valid?
    requires forall a <- VIPAddresses(service.status) :: EndpointAt(a).host == ""
    ensures var endpoints, backends, ports :=
              EndpointsOf(VIPAddresses(service.status), service.spec),
              Routable(service.spec.backends), service.spec.vipService.ports;
            if backends != [] then OnePerBackend(endpoints, backends)
            else |endpoints| == |ports|
                 && forall i | 0 <= i < |ports| :: endpoints[i] == Endpoint(PLACEHOLDER, PortOf(ports[i]))
  {
    hide EndpointsAt, AddressOf, PortOf, ValidateTailscaleService, Routable;
    AcceptedExactly(names, service.spec);
    UnusableAddresses(VIPAddresses(service.status));
    BackendsConserved(names, service.spec.backends);
  }
}
