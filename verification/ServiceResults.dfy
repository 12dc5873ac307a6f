/** What one reconcile writes, told from the specification of the service alone. */
module ServiceResults {
  import opened Options
  import opened Text
  import opened Selections
  import opened Api
  import opened Conditions
  import opened Ports
  import opened ConfigPrinter
  import opened ConfigRoundTrip
  import opened VIPClient
  import opened ServiceReconciler
  import opened ServiceProtocol
  import opened ServiceConvergence
  import opened ProxyObjects
  import T = ProxyTheorems
  import B = ProxyBuilder

  // ------------------------------------------------------------------ the VIP service

  predicate IsVIPName(vipName: string, spec: ServiceSpec, name: string) {
    vipName == if spec.vipService.name == "" then "svc:" + name else spec.vipService.name
  }

  /** The client has to create the VIP service. */
  predicate Missing(vipName: string, vips: VIPs, o: Outcome) {
    o.clientSet && !(ValidateName(vipName).None? && o.lookupOk && vipName in vips)
  }

  /** It has to, and cannot. */
  predicate Refused(vipName: string, spec: VIPServiceSpec, vips: VIPs, o: Outcome) {
    Missing(vipName, vips, o) && (ValidateVIPService(vipName, spec.ports, spec.tags).Some? || o.createError.Some?)
  }

  /** It has to, and does. */
  predicate Puts(vipName: string, spec: VIPServiceSpec, vips: VIPs, o: Outcome) {
    Missing(vipName, vips, o) && ValidateVIPService(vipName, spec.ports, spec.tags).None? && o.createError.None?
  }

  /** The VIP status that records a VIP service of this name. */
  predicate RecordsVIP(
    after: VIPStatus, before: VIPStatus, vipName: string, spec: VIPServiceSpec, put: bool, o: Outcome)
  {
    && after.serviceName == vipName && after.serviceTags == spec.tags && after.created == o.clientSet
    && after.dnsName ==
         (if !o.clientSet || (put && o.secondLookupOk) then vipName + ".tailnet.ts.net" else before.dnsName)
    && after.addresses == if put && o.secondLookupOk then o.addrs else before.addresses
  }

  /** The VIP part puts the VIP service of the specification, or leaves all of them alone, and records it. */
  lemma {:induction false} VIPPartWrites(
    before: VIPStatus, vipName: string, name: string, spec: ServiceSpec, vips: VIPs, o: Outcome)
    requires IsVIPName(vipName, spec, name)
    ensures var result, vip := ReconciledVIP(before, name, spec, vips, o), spec.vipService;
            var put := Puts(vipName, vip, vips, o);
            && result.vips == (if !put then vips
                               else vips[vipName := VIPService(
                                 ports := vip.ports, tags := vip.tags, comment := vip.comment, addrs := o.addrs,
                                 byController := true)])
            && (result.error.Some? <==> Refused(vipName, vip, vips, o))
            && (result.error.Some? ==> result.status == before)
            && (result.error.None? ==> RecordsVIP(result.status, before, vipName, vip, put, o))
  {
    hide ValidateName, ValidateVIPService;
  }

  /** What the error of the VIP part says. */
  lemma {:induction false} VIPErrorSays(
    before: VIPStatus, vipName: string, name: string, spec: ServiceSpec, vips: VIPs, o: Outcome)
    requires IsVIPName(vipName, spec, name) && Refused(vipName, spec.vipService, vips, o)
    ensures var invalid := ValidateVIPService(vipName, spec.vipService.ports, spec.vipService.tags);
            ReconciledVIP(before, name, spec, vips, o).error ==
              Some("failed to create VIP service: " +
                   (if invalid.Some? then "invalid VIP service: " + invalid.value else o.createError.value))
  {
    hide ValidateName, ValidateVIPService;
  }

  const NO_VIP := VIPStatus(false, "", [], "", 0, 0, [])

  /** A working reconcile puts exactly the VIP service that the specification asks for, or none. */
  lemma {:induction false} ReconcileWritesVIP(c: Cluster, key: ObjectKey, o: Outcome, vipName: string)
    requires Works(c, key, o) && IsVIPName(vipName, c.objects[key].spec, key.name)
    ensures var d, vip := Step(c, key, o), c.objects[key].spec.vipService;
            d.vips == if !Puts(vipName, vip, c.vips, o) then c.vips
                      else c.vips[vipName := VIPService(
                        ports := vip.ports, tags := vip.tags, comment := vip.comment, addrs := o.addrs,
                        byController := true)]
    ensures var d, vip := Step(c, key, o), c.objects[key].spec.vipService;
            var before := c.objects[key].status.vip.GetOr(NO_VIP);
            && key in d.objects && d.objects - {key} == c.objects - {key}
            && (o.statusUpdateOk ==>
                  && d.objects[key] == c.objects[key].(status := d.objects[key].status)
                  && d.objects[key].status.vip.Some? && d.objects[key].status.lastUpdate == Some(o.updatedAt)
                  && var after := d.objects[key].status.vip.value;
                     if Refused(vipName, vip, c.vips, o) then after == before
                     else RecordsVIP(after, before, vipName, vip, Puts(vipName, vip, c.vips, o), o))
            && (!o.statusUpdateOk ==> d.objects == c.objects)
  {
    hide Step, WorkOf, ValidateName, ValidateVIPService, ReplacedAll, ReconciledVIP, ReconciledProxy, Reports,
         BackendStatuses, IsOrder, B.ConfigOf, IsVIPName;
    StepOfWork(c, key, o);
    var resource := c.objects[key];
    var before := resource.status.vip.GetOr(NO_VIP);
    VIPPartWrites(before, vipName, key.name, resource.spec, c.vips, o);
    WorkParts(key, resource, c.vips, c.store, o);
    WorkIsTimed(key, resource, c.vips, c.store, o);
    hide Puts, Refused;
  }

  lemma {:induction false} WorkIsTimed(key: ObjectKey, resource: Resource, vips: VIPs, store: B.Store, o: Outcome)
    requires o.Possible()
    ensures WorkOf(key, resource, vips, store, o).status.lastUpdate == Some(o.updatedAt)
  {
    hide ReconciledVIP, ReconciledProxy, Replaced, BackendStatuses, IsOrder, B.ConfigOf;
  }

  // ------------------------------------------------------------------ the proxy

  /** The proxy is asked for without a tailnet, or one of its six writes is not taken. */
  ghost predicate ProxyRefused(c: Cluster, key: ObjectKey, o: Outcome)
    requires key in c.objects && o.Possible()
  {
    || c.objects[key].spec.tailnet == ""
    || exists i: nat | i < B.OBJECT_COUNT ::
         !B.Accepts(c.store, B.WriteKey(key.namespace, key.name + "-proxy", i), o.answers[i])
  }

  /** A working reconcile whose VIP part does not fail and whose proxy is written. */
  ghost predicate WritesProxy(c: Cluster, key: ObjectKey, o: Outcome, vipName: string) {
    && Works(c, key, o) && IsVIPName(vipName, c.objects[key].spec, key.name)
    && !Refused(vipName, c.objects[key].spec.vipService, c.vips, o)
    && c.objects[key].spec.proxy.Some? && !ProxyRefused(c, key, o)
  }

  lemma {:induction false} ProxyFailsExactly(c: Cluster, key: ObjectKey, o: Outcome)
    requires key in c.objects && o.Possible() && c.objects[key].spec.proxy.Some?
    ensures var resource := c.objects[key];
            var result := ReconciledProxy(key, resource.uid, resource.spec, c.store, o);
            && result.error == (if !ProxyRefused(c, key, o) then None
                                else if resource.spec.tailnet == "" then
                                  Some("tailnet is required when proxy is specified")
                                else Some("failed to create proxy infrastructure: " + o.proxyFailure))
            && (resource.spec.tailnet == "" ==> result.store == c.store)
  {
    hide IsOrder, B.ConfigOf, MappingsOf, B.WriteKey, B.Accepts, B.Advance, T.Prefix, ProxyLabels;
    var resource := c.objects[key];
    if resource.spec.tailnet != "" {
      var proxy := ProxySpecOf(key, resource.uid, resource.spec);
      var k := T.StopExists(c.store, proxy, o.answers, 0);
      T.CreationIsPrefix(c.store, proxy, o.order, o.answers, k);
    }
  }

  /** The specification of a proxy, as the service asks for it. */
  predicate AskedFor(proxy: B.ProxySpec, key: ObjectKey, resource: Resource) {
    && resource.spec.proxy.Some?
    && proxy.name == key.name + "-proxy" && proxy.namespace == key.namespace && proxy.tailnet == resource.spec.tailnet
    && proxy.connectionType == "bidirectional" && proxy.ports == MappingsOf(resource.spec.vipService.ports)
    && proxy.image == Some(resource.spec.proxy.value.image) && proxy.owner == resource.uid
    && proxy.replicas == (if resource.spec.proxy.value.replicas.Some? then resource.spec.proxy.value.replicas.value
                          else 2)
    && proxy.labels == map[
         "app" := "tailscale-proxy", "tailscale.com/managed" := "true",
         "tailscale.com/parent-resource" := key.name, "tailscale.com/parent-type" := "TailscaleService"]
  }

  lemma {:induction false} CreationCompletes(c: Cluster, key: ObjectKey, o: Outcome, vipName: string)
    returns (proxy: B.ProxySpec)
    requires WritesProxy(c, key, o, vipName)
    ensures AskedFor(proxy, key, c.objects[key]) && Completes(c.store, proxy, o.order, o.answers, Step(c, key, o).store)
  {
    hide Step, WorkOf, IsOrder, B.ConfigOf, MappingsOf, B.Advance, ReconciledVIP, Refused, ReplacedAll, Reports,
         BackendStatuses, IsVIPName, ProxyRefused;
    var resource := c.objects[key];
    StepOfWork(c, key, o);
    WorkParts(key, resource, c.vips, c.store, o);
    VIPPartWrites(resource.status.vip.GetOr(EMPTY_VIP), vipName, key.name, resource.spec, c.vips, o);
    ProxyFailsExactly(c, key, o);
    proxy := ProxySpecOf(key, resource.uid, resource.spec);
    TailnetGiven(c, key, o);
  }

  lemma {:induction false} TailnetGiven(c: Cluster, key: ObjectKey, o: Outcome)
    requires key in c.objects && o.Possible() && !ProxyRefused(c, key, o)
    ensures c.objects[key].spec.tailnet != ""
  {
    hide IsOrder, B.ConfigOf;
  }

  /** The stateful set and the service of the proxy, as the reconcile leaves them. */
  function SetKey(key: ObjectKey): B.Key {
    B.Key(B.StatefulSet, key.namespace, key.name + "-proxy")
  }

  function ServiceKey(key: ObjectKey): B.Key {
    B.Key(B.Service, key.namespace, key.name + "-proxy")
  }

  /** The reconcile fills the six keys of the proxy with objects of the service, and touches no other. */
  lemma {:induction false} ReconcileWritesProxy(c: Cluster, key: ObjectKey, o: Outcome, vipName: string)
    requires WritesProxy(c, key, o, vipName)
    ensures var d, keys := Step(c, key, o), ProxyKeys(key.namespace, key.name + "-proxy");
            && d.store.Keys == c.store.Keys + keys
            && (forall k <- c.store | k !in keys :: d.store[k] == c.store[k])
            && (forall k <- keys :: d.store[k].owner == c.objects[key].uid)
            && (forall k <- keys | !k.kind.Secret? ::
                  d.store[k].labels == map[
                    "app" := "tailscale-proxy", "tailscale.com/managed" := "true",
                    "tailscale.com/parent-resource" := key.name, "tailscale.com/parent-type" := "TailscaleService"])
  {
    hide Step, IsOrder, Refused, IsVIPName, ProxyRefused, B.Advance, B.WriteKey, MappingsOf, ProxyKeys, Completes;
    var proxy := CreationCompletes(c, key, o, vipName);
    FillsItsKeys(c.store, proxy, o.order, o.answers, Step(c, key, o).store);
    forall k <- ProxyKeys(key.namespace, key.name + "-proxy")
      ensures Step(c, key, o).store[k].owner == c.objects[key].uid
      ensures k.kind.Secret? || Step(c, key, o).store[k].labels == proxy.labels
    {
      AllOwned(c.store, proxy, o.order, o.answers, Step(c, key, o).store, k);
    }
  }

  /** The stateful set runs the image and the replicas of the specification, with the configuration of its tailnet. */
  lemma {:induction false} ReconcileWritesWorkload(c: Cluster, key: ObjectKey, o: Outcome, vipName: string)
    requires WritesProxy(c, key, o, vipName)
    ensures var store, spec := Step(c, key, o).store, c.objects[key].spec;
            && SetKey(key) in store && store[SetKey(key)].SetObject?
            && store[SetKey(key)].container.image ==
                 (if spec.proxy.value.image == "" then "tailscale/tailscale:latest" else spec.proxy.value.image)
            && store[SetKey(key)].replicas ==
                 (if spec.proxy.value.replicas.None? then 2 else spec.proxy.value.replicas.value)
            && ConfigMounted(store[SetKey(key)], key.name + "-proxy-config", spec.tailnet)
            && Fronts(store, ServiceKey(key), SetKey(key))
  {
    hide Step, IsOrder, Refused, IsVIPName, ProxyRefused, B.Advance, MappingsOf, Completes, ConfigMounted, Fronts;
    var proxy := CreationCompletes(c, key, o, vipName);
    WorkloadAsGiven(c.store, proxy, o.order, o.answers, Step(c, key, o).store);
    ServiceFrontsSet(c.store, proxy, o.order, o.answers, Step(c, key, o).store);
    assert (key.name + "-proxy") + "-config" == key.name + "-proxy-config";
  }

  /** The secret that it mounts holds the configuration of a proxy for both directions. */
  lemma {:induction false} ReconcileWritesConfig(c: Cluster, key: ObjectKey, o: Outcome, vipName: string)
    requires WritesProxy(c, key, o, vipName)
    ensures var store, secretKey := Step(c, key, o).store,
                                    B.Key(B.Secret, key.namespace, key.name + "-proxy-config");
            && secretKey in store && store[secretKey].SecretObject?
            && store[secretKey].data.Keys == {"cap-106.hujson"}
            && ReadConfig(store[secretKey].data["cap-106.hujson"]) ==
                 Some(map["Version" := Str("alpha0"), "Locked" := Flag(false), "AdvertiseServices" := List([])])
  {
    hide Step, IsOrder, Refused, IsVIPName, ProxyRefused, B.Advance, MappingsOf, Completes, ReadConfig;
    var proxy := CreationCompletes(c, key, o, vipName);
    SecretHoldsConfig(c.store, proxy, o.order, o.answers, Step(c, key, o).store);
    assert (key.name + "-proxy") + "-config" == key.name + "-proxy-config";
  }

  // ------------------------------------------------------------------ the ports of the proxy

  /** The ports that the stateful set listens on and the service in front of it offers. */
  ghost predicate HasPorts(store: B.Store, key: ObjectKey, ours: seq<ContainerPort>, theirs: seq<ServicePort>) {
    && SetKey(key) in store && store[SetKey(key)].SetObject? && store[SetKey(key)].container.ports == ours
    && ServiceKey(key) in store && store[ServiceKey(key)].ServiceObject?
    && store[ServiceKey(key)].servicePorts == theirs
  }

  /** A port of the set and one of the service, both made from the port string at `k`. */
  predicate PortOfString(ours: ContainerPort, theirs: ServicePort, vipPorts: seq<string>, k: nat) {
    && k < |vipPorts|
    && ours.name == theirs.name == "port-" + Decimal(k)
    && ours.containerPort == theirs.port == theirs.targetPort
    && Some(theirs.port) == ParseInt32(SplitPort(vipPorts[k]).1)
    && ours.protocol == theirs.protocol && (theirs.protocol == UDP <==> HasUdpPrefix(vipPorts[k]))
  }

  /**
   From the port strings to the two objects: both have one port for each string with a
   number, in order, alike and UDP exactly for udp prefixes, or one for http if there is none.
   */
  lemma {:induction false} ReconcileWritesPorts(c: Cluster, key: ObjectKey, o: Outcome, vipName: string)
    returns (kept: seq<nat>, ours: seq<ContainerPort>, theirs: seq<ServicePort>)
    requires WritesProxy(c, key, o, vipName)
    ensures var ports := c.objects[key].spec.vipService.ports;
            && HasPorts(Step(c, key, o).store, key, ours, theirs) && |ours| == |theirs|
            && AreKept(kept, |ports|, HasNumber(ports))
            && (kept == [] ==> ours == [ContainerPort("http", 80, TCP)] && theirs == [ServicePort("http", 80, 80, TCP)])
            && (kept != [] ==>
                  |theirs| == |kept| && forall j | 0 <= j < |kept| :: PortOfString(ours[j], theirs[j], ports, kept[j]))
    ensures forall i, j | 0 <= i < j < |theirs| :: theirs[i].name != theirs[j].name
  {
    hide Step, IsOrder, Refused, IsVIPName, ProxyRefused, B.Advance, MappingsOf, Completes, ParseInt32,
         SplitPort, HasUdpPrefix, AreKept, Decimal;
    var ports, d := c.objects[key].spec.vipService.ports, Step(c, key, o);
    var proxy := CreationCompletes(c, key, o, vipName);
    PortsAgree(c.store, proxy, o.order, o.answers, d.store);
    kept := MappingsExactly(ports);
    ours, theirs := d.store[SetKey(key)].container.ports, d.store[ServiceKey(key)].servicePorts;
    hide AskedFor;
    forall j | 0 <= j < |kept| ensures PortOfString(ours[j], theirs[j], ports, kept[j]) {
      UdpPrefixDecodes(ports[kept[j]]);
    }
    forall i, j | 0 <= i < j < |theirs| ensures theirs[i].name != theirs[j].name {
      MappingNamesDistinct(ports, i, j);
    }
  }

  /** Strings of a protocol, a colon and a number. */
  predicate ArePrintedPorts(vipPorts: seq<string>, protocols: seq<string>, numbers: seq<nat>) {
    && |vipPorts| == |protocols| == |numbers|
    && forall i | 0 <= i < |vipPorts| ::
         vipPorts[i] == protocols[i] + ":" + Decimal(numbers[i]) && ':' !in protocols[i] && numbers[i] <= 0x7FFF_FFFF
  }

  /** For such strings none is dropped, and the two objects have exactly these numbers. */
  lemma {:induction false} PrintedPortsRoundTrip(
    c: Cluster, key: ObjectKey, o: Outcome, vipName: string, protocols: seq<string>, numbers: seq<nat>)
    returns (ours: seq<ContainerPort>, theirs: seq<ServicePort>)
    requires WritesProxy(c, key, o, vipName) && numbers != []
    requires ArePrintedPorts(c.objects[key].spec.vipService.ports, protocols, numbers)
    ensures HasPorts(Step(c, key, o).store, key, ours, theirs) && |ours| == |theirs| == |numbers|
    ensures forall i | 0 <= i < |numbers| ::
              var name, protocol := "port-" + Decimal(i), if protocols[i] in UDP_NAMES then UDP else TCP;
              && ours[i] == ContainerPort(name, numbers[i], protocol)
              && theirs[i] == ServicePort(name, numbers[i], numbers[i], protocol)
  {
    hide Step, Refused, IsVIPName, ProxyRefused, IsOrder, AreKept, ParseInt32, SplitPort, Decimal, HasPorts,
         HasUdpPrefix;
    var ports := c.objects[key].spec.vipService.ports;
    var kept: seq<nat>;
    kept, ours, theirs := ReconcileWritesPorts(c, key, o, vipName);
    forall i: nat | i < |ports|
      ensures ParseInt32(SplitPort(ports[i]).1) == Some(numbers[i])
      ensures HasUdpPrefix(ports[i]) <==> protocols[i] in UDP_NAMES
    {
      SplitAtFirstColon(protocols[i], Decimal(numbers[i]));
      ParseInvertsDecimal(numbers[i]);
      UdpIsPrefix(protocols[i], Decimal(numbers[i]));
    }
    AllKept(kept, |ports|, HasNumber(ports));
  }

  // The ways to write the one protocol that is not TCP.
  const UDP_NAMES := {"udp", "udP", "uDp", "uDP", "Udp", "UdP", "UDp", "UDP"}

  lemma {:induction false} UdpIsPrefix(protocol: string, rest: string)
    requires ':' !in protocol
    ensures HasUdpPrefix(protocol + ":" + rest) <==> protocol in UDP_NAMES
  {
    var portStr := protocol + ":" + rest;
    assert portStr[|protocol|] == ':' && forall i | 0 <= i < |protocol| :: portStr[i] == protocol[i];
    if HasUdpPrefix(portStr) {
      assert |protocol| == 3;
      assert protocol == [protocol[0], protocol[1], protocol[2]];
    }
  }

  // ------------------------------------------------------------------ the status

  lemma {:induction false} ReportIsFound(conditions: seq<Condition>, report: Condition)
    ensures GetCondition(Replaced(conditions, report), report.kind) == Some(report)
  {
    hide FirstOf;
    var i := FirstOf(conditions, report.kind);
    ReplacedShows(conditions, report, i.GetOr(|conditions|));
  }

  /** After reports of different types, each is found as it was made, and other types as before. */
  lemma {:induction false} LookupAfterReports(conditions: seq<Condition>, reports: seq<Condition>, kind: string)
    requires KindsDiffer(reports)
    ensures (forall r <- reports :: r.kind != kind) ==>
              GetCondition(ReplacedAll(conditions, reports), kind) == GetCondition(conditions, kind)
    ensures forall i | 0 <= i < |reports| && reports[i].kind == kind ::
              GetCondition(ReplacedAll(conditions, reports), kind) == Some(reports[i])
  {
    hide GetCondition, Replaced;
    if reports != [] {
      var front, last := reports[..|reports| - 1], reports[|reports| - 1];
      assert forall i | 0 <= i < |front| :: front[i] == reports[i];
      LookupAfterReports(conditions, front, kind);
      ReportIsFound(ReplacedAll(conditions, front), last);
      if last.kind != kind { LookupElsewhere(ReplacedAll(conditions, front), last, kind); }
    }
  }

  /** What a working reconcile reports of each condition type; of the others it says nothing. */
  ghost predicate Reported(
    report: Option<Condition>, kind: string, vipError: Option<string>, proxyError: Option<Option<string>>, o: Outcome)
  {
    match kind
    case "VIPServiceReady" =>
      report == Some(
        if vipError.Some? then Condition(kind, False, "VIPServiceError", vipError.value, o.vipAt)
        else Condition(kind, True, "VIPServiceReady", "VIP service is ready", o.vipAt))
    case "ProxyReady" =>
      report == if vipError.Some? || proxyError.None? then None
                else Some(
                  if proxyError.value.Some? then Condition(kind, False, "ProxyError", proxyError.value.value, o.proxyAt)
                  else Condition(kind, True, "ProxyReady", "Proxy infrastructure is ready", o.proxyAt))
    case "Ready" =>
      report == if vipError.Some? || (proxyError.Some? && proxyError.value.Some?) then None
                else Some(Condition(kind, True, "Ready", "TailscaleService is ready", o.readyAt))
    case _ => report == None
  }

  lemma {:induction false} ReportsSay(
    conditions: seq<Condition>, kind: string, vipError: Option<string>, proxyError: Option<Option<string>>, o: Outcome)
    returns (report: Option<Condition>)
    ensures Reported(report, kind, vipError, proxyError, o)
    ensures GetCondition(ReplacedAll(conditions, Reports(vipError, proxyError, o)), kind) ==
              if report.Some? then report else GetCondition(conditions, kind)
  {
    hide GetCondition, ReplacedAll;
    var reports := Reports(vipError, proxyError, o);
    ReportsAlike(vipError, proxyError, o, o);
    LookupAfterReports(conditions, reports, kind);
    hide KindsDiffer;
    var ready, finished := vipError.None?, vipError.None? && (proxyError.None? || proxyError.value.None?);
    assert reports[0].kind == "VIPServiceReady";
    assert finished ==> reports[|reports| - 1].kind == "Ready";
    assert ready && proxyError.Some? ==> reports[1].kind == "ProxyReady";
    report :=
      if kind == "VIPServiceReady" then Some(reports[0])
      else if kind == "ProxyReady" && ready && proxyError.Some? then Some(reports[1])
      else if kind == "Ready" && finished then Some(reports[|reports| - 1])
      else None;
  }

  /** The errors of the two parts of a reconcile: those of its calls, or the ones that the specification brings. */
  lemma {:induction false} ReconcileErrors(c: Cluster, key: ObjectKey, o: Outcome, vipName: string)
    returns (vipError: Option<string>, proxyError: Option<Option<string>>)
    requires Works(c, key, o) && IsVIPName(vipName, c.objects[key].spec, key.name)
    ensures vipError.Some? <==> Refused(vipName, c.objects[key].spec.vipService, c.vips, o)
    ensures proxyError.Some? <==> c.objects[key].spec.proxy.Some?
    ensures proxyError.Some? ==> (proxyError.value.Some? <==> ProxyRefused(c, key, o))
    ensures var resource := c.objects[key];
            && vipError == ReconciledVIP(resource.status.vip.GetOr(EMPTY_VIP), key.name, resource.spec, c.vips, o).error
            && proxyError == ProxyError(key, resource, c.store, o)
  {
    hide IsOrder, B.ConfigOf, ReconciledVIP, ReconciledProxy, Refused, Puts, IsVIPName, ProxyRefused;
    var resource := c.objects[key];
    VIPPartWrites(resource.status.vip.GetOr(EMPTY_VIP), vipName, key.name, resource.spec, c.vips, o);
    if resource.spec.proxy.Some? { ProxyFailsExactly(c, key, o); }
    vipError := ReconciledVIP(resource.status.vip.GetOr(EMPTY_VIP), key.name, resource.spec, c.vips, o).error;
    proxyError := ProxyError(key, resource, c.store, o);
  }

  /** What a working reconcile leaves in the conditions, for every type. */
  lemma {:induction false} ReconcileReports(c: Cluster, key: ObjectKey, o: Outcome, vipName: string, kind: string)
    returns (vipError: Option<string>, proxyError: Option<Option<string>>, report: Option<Condition>)
    requires Works(c, key, o) && o.statusUpdateOk && IsVIPName(vipName, c.objects[key].spec, key.name)
    ensures vipError.Some? <==> Refused(vipName, c.objects[key].spec.vipService, c.vips, o)
    ensures proxyError.Some? <==> c.objects[key].spec.proxy.Some?
    ensures proxyError.Some? ==> (proxyError.value.Some? <==> ProxyRefused(c, key, o))
    ensures Reported(report, kind, vipError, proxyError, o) && key in Step(c, key, o).objects
    ensures GetCondition(Step(c, key, o).objects[key].status.conditions, kind) ==
              if report.Some? then report else GetCondition(c.objects[key].status.conditions, kind)
  {
    hide Step, WorkOf, IsOrder, B.ConfigOf, ReconciledVIP, ReconciledProxy, Refused, IsVIPName, ProxyRefused,
         Reported, Reports, ReplacedAll, GetCondition, ProxyError;
    vipError, proxyError := ReconcileErrors(c, key, o, vipName);
    StepOfWork(c, key, o);
    WorkParts(key, c.objects[key], c.vips, c.store, o);
    report := ReportsSay(c.objects[key].status.conditions, kind, vipError, proxyError, o);
  }

  /** The status of one backend: its target by kind, weight 1 and priority 0 unless it says otherwise. */
  predicate ListsBackend(status: BackendStatus, backend: BackendSpec) {
    && status.kind == backend.kind && status.healthy
    && (backend.kind == "kubernetes" ==> status.target == backend.service)
    && (backend.kind == "external" ==> status.target == backend.address)
    && (backend.kind == "tailscale" ==> status.target == backend.tailscaleService)
    && (backend.kind !in {"kubernetes", "external", "tailscale"} ==> status.target == "")
    && status.weight == (if backend.weight.Some? then backend.weight.value else 1)
    && status.priority == (if backend.priority.Some? then backend.priority.value else 0)
  }

  lemma {:induction false} BackendsAreListed(backends: seq<BackendSpec>)
    ensures |BackendStatuses(backends)| == |backends|
    ensures forall i | 0 <= i < |backends| :: ListsBackend(BackendStatuses(backends)[i], backends[i])
  {
    assert |"kubernetes"| == 10 && |"external"| == 8 && |"tailscale"| == 9;
  }

  /** A reconcile that gets to its end lists every backend and the proxy; any other leaves both as they were. */
  lemma {:induction false} ReconcileLists(c: Cluster, key: ObjectKey, o: Outcome, vipName: string)
    requires Works(c, key, o) && o.statusUpdateOk && IsVIPName(vipName, c.objects[key].spec, key.name)
    ensures key in Step(c, key, o).objects && Step(c, key, o).objects[key].status.vip.Some?
    ensures var spec, before := c.objects[key].spec, c.objects[key].status;
            var after, n, name := Step(c, key, o).objects[key].status, |spec.backends|, key.name + "-proxy";
            var vip, vip' := before.vip.GetOr(NO_VIP), after.vip.value;
            if !Refused(vipName, spec.vipService, c.vips, o) && (spec.proxy.None? || !ProxyRefused(c, key, o)) then
              && |after.backends| == n == after.totalBackends == after.healthyBackends
              && vip'.backendCount == vip'.healthyBackendCount == n
              && (forall i | 0 <= i < n :: ListsBackend(after.backends[i], spec.backends[i]))
              && after.proxy == (if spec.proxy.None? then before.proxy
                                 else Some(Api.ProxyStatus(
                                   statefulSetName := name, serviceName := name,
                                   replicas := if spec.proxy.value.replicas.None? then 2
                                               else spec.proxy.value.replicas.value)))
            else
              && after.backends == before.backends && after.proxy == before.proxy
              && after.totalBackends == before.totalBackends && after.healthyBackends == before.healthyBackends
              && vip'.backendCount == vip.backendCount && vip'.healthyBackendCount == vip.healthyBackendCount
  {
    hide Step, WorkOf, IsOrder, B.ConfigOf, ReconciledProxy, Refused, IsVIPName, ProxyRefused, BackendStatuses,
         Reports, ReplacedAll, ProxyError, Found, CreateError, VipServiceName, DNSNameOf;
    var vipError, proxyError := ReconcileErrors(c, key, o, vipName);
    StepOfWork(c, key, o);
    WorkParts(key, c.objects[key], c.vips, c.store, o);
    BackendsAreListed(c.objects[key].spec.backends);
    hide ListsBackend;
  }

  // ------------------------------------------------------------------ the finalizer

  /** The first reconcile of an object without the finalizer puts it on and does nothing else. */
  lemma {:induction false} FirstReconcileWrites(c: Cluster, key: ObjectKey, o: Outcome)
    requires key in c.objects && o.Possible() && o.getOk
    requires !c.objects[key].deleting && "tailscale.com/finalizer" !in c.objects[key].finalizers
    ensures var resource, own := c.objects[key], {"tailscale.com/finalizer"};
            Step(c, key, o) ==
              if o.updateOk then c.(objects := c.objects[key := resource.(finalizers := resource.finalizers + own)])
              else c
  {
    hide WorkOf;
  }

  /** The VIP service that the reconcile of a deleted object takes away, if any. */
  predicate TakesVIP(resource: Resource, name: string, o: Outcome) {
    && o.clientSet && o.deleteOk && ValidateName(name).None?
    && resource.status.vip.Some? && resource.status.vip.value.created && resource.status.vip.value.serviceName == name
  }

  /** That reconcile takes away one VIP service at most, and the finalizer with the object if it was the last. */
  lemma {:induction false} DeletionWrites(c: Cluster, key: ObjectKey, o: Outcome)
    requires key in c.objects && o.Possible() && o.getOk && c.objects[key].deleting
    ensures var d, resource := Step(c, key, o), c.objects[key];
            && d.store == c.store
            && (forall name :: name in d.vips <==> name in c.vips && !TakesVIP(resource, name, o))
            && (forall name <- d.vips :: d.vips[name] == c.vips[name])
    ensures var d, resource := Step(c, key, o), c.objects[key];
            var left := resource.finalizers - {"tailscale.com/finalizer"};
            d.objects == if !o.updateOk then c.objects
                         else if left == {} then c.objects - {key}
                         else c.objects[key := resource.(finalizers := left)]
  {
    hide WorkOf, ValidateName;
  }
}
